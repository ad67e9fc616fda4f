/** The active bid probe: it moves a live bid, waits for the market floor to follow,
    and puts the bid back (tools/vast/bid_echo_probe.py). */
module EchoProbe {
  import opened Money

  const ECHO_EPS := 0.0005
  const MIN_MOVE := 0.001
  const CONFIRM_READS := 2
  const BID_RATE_LIMIT_S := 60.0
  const RESTORE_ATTEMPTS := 3
  const RESTORE_BACKOFF_S := 10.0
  const INTERVAL_FLOOR_S := 30.0

  // ---- what a floor read is ------------------------------------------------------

  datatype Matched = New | Old | Other | Unread

  function ClassifyFloor(floor: Option<real>, from: real, to: real): Matched {
    match floor
    case None => Unread
    case Some(f) =>
      if Abs(f - to) <= ECHO_EPS then New
      else if Abs(f - from) <= ECHO_EPS then Old
      else Other
  }

  /** The echo of either price is recognised for what it is whenever the two prices
      are distinct grid points, and so is every other grid point. */
  lemma EchoesAreToldApart(floor: real, from: real, to: real)
    requires OnGrid(floor) && OnGrid(from) && OnGrid(to) && from != to
    ensures ClassifyFloor(Some(floor), from, to) ==
            if floor == to then New else if floor == from then Old else Other
  {
    GridGap(floor, to);
    GridGap(floor, from);
  }

  /** Any floor at all: within half a tenth of a cent of the new price it is new, else so
      near the old one old, else neither; no floor is no read. */
  lemma ClassifiedExactly(floor: Option<real>, from: real, to: real)
    ensures ClassifyFloor(floor, from, to) ==
            if floor.None? then Unread
            else if -0.0005 <= floor.value - to <= 0.0005 then New
            else if -0.0005 <= floor.value - from <= 0.0005 then Old
            else Other
  {
  }

  lemma GridGap(a: real, b: real)
    requires OnGrid(a) && OnGrid(b)
    ensures a != b ==> Abs(a - b) >= MIN_MOVE
  {
    var i, j := (a * 1000.0).Floor, (b * 1000.0).Floor;
    assert a * 1000.0 - b * 1000.0 == (i - j) as real;
  }

  // ---- the plan ---------------------------------------------------------------------

  datatype PhaseName = Raise | Lower | Unknown

  datatype Phase = Phase(name: PhaseName, from: real, to: real)

  function Scaled(x: real, pct: real): real { x * (1.0 + pct / 100.0) }

  /** Where one phase goes from `cur`. */
  function PhaseTarget(name: PhaseName, cur: real, orig: real, deltaPct: real): real {
    if name.Raise? then Round3(Scaled(cur, deltaPct))
    else if cur > orig then orig
    else Round3(Scaled(cur, -deltaPct))
  }

  /** The bid before the `i`-th phase. */
  function Before(plan: seq<Phase>, i: nat, orig: real): real
    requires i <= |plan|
  {
    if i == 0 then orig else plan[i - 1].to
  }

  /** Each phase starts where the last one ended. */
  predicate Chained(plan: seq<Phase>, names: seq<PhaseName>, orig: real, deltaPct: real) {
    && |plan| == |names|
    && forall i :: 0 <= i < |plan| ==>
         && plan[i].name == names[i]
         && plan[i].from == Before(plan, i, orig)
         && plan[i].to == PhaseTarget(names[i], plan[i].from, orig, deltaPct)
  }

  method BuildPlan(origBid: real, deltaPct: real, names: seq<PhaseName>) returns (plan: Option<seq<Phase>>)
    ensures plan.None? <==> Unknown in names
    ensures plan.Some? ==> Chained(plan.value, names, Round3(origBid), deltaPct)
  {
    hide Round3, PhaseTarget;
    var orig := Round3(origBid);
    var cur, phases: seq<Phase> := orig, [];
    for i := 0 to |names|
      invariant Unknown !in names[..i]
      invariant Chained(phases, names[..i], orig, deltaPct)
      invariant cur == Before(phases, i, orig)
    {
      if names[i].Unknown? {
        return None;
      }
      assert names[..i + 1] == names[..i] + [names[i]];
      var target := PhaseTarget(names[i], cur, orig, deltaPct);
      assert forall k :: 0 <= k <= i ==> Before(phases + [Phase(names[i], cur, target)], k, orig) == Before(phases, k, orig);
      phases := phases + [Phase(names[i], cur, target)];
      cur := target;
    }
    assert names[..|names|] == names;
    return Some(phases);
  }

  datatype Box = Box(isBid: bool, running: bool, machineId: Option<int>, standingBid: Option<real>)

  /** What each complaint of the preflight amounts to; none of them may apply. */
  predicate Preflight(box: Option<Box>, plan: seq<Phase>, maxPrice: real, orig: Option<real>) {
    && box.Some? && box.value.isBid && box.value.running && box.value.machineId.Some?
    && Known(orig).Some? && orig.value <= maxPrice
    && forall i :: 0 <= i < |plan| ==> plan[i].to <= maxPrice && Abs(plan[i].to - plan[i].from) >= MIN_MOVE
  }

  /** Where each phase goes: up by the percentage; down to the original from above it, and
      by the percentage from there or below. */
  lemma PhaseGoesByPercent(cur: real, orig: real, deltaPct: real)
    ensures PhaseTarget(Raise, cur, orig, deltaPct) == Round3(cur * (1.0 + deltaPct / 100.0))
    ensures cur > orig ==> PhaseTarget(Lower, cur, orig, deltaPct) == orig
    ensures cur <= orig ==> PhaseTarget(Lower, cur, orig, deltaPct) == Round3(cur * (1.0 - deltaPct / 100.0))
  {
    hide Round3;
    assert cur * (1.0 + -deltaPct / 100.0) == cur * (1.0 - deltaPct / 100.0);
  }

  /** Everything the preflight asks: a running spot box of a known machine, with a standing
      bid under the cap, and every phase a price under the cap and a grid step away. */
  lemma PreflightExactly(box: Option<Box>, plan: seq<Phase>, maxPrice: real, orig: Option<real>)
    ensures Preflight(box, plan, maxPrice, orig) <==>
              && box.Some? && box.value.isBid && box.value.running && box.value.machineId.Some?
              && orig.Some? && orig.value > 0.0 && orig.value <= maxPrice
              && forall i :: 0 <= i < |plan| ==>
                   plan[i].to <= maxPrice && (plan[i].to >= plan[i].from + 0.001 || plan[i].to <= plan[i].from - 0.001)
  {
  }

  /** The sign of a move off `from`, were it a raise. */
  function Drift(from: real, pct: real): real { from * pct }

  /** In a plan the preflight lets through, whatever the percentage, every phase moves
      between two grid prices under the cap. It moves the way it is named as long as the
      price and the percentage have one sign, up to a hundred always, and a phase that
      lowers the bid from above the original restores the original. */
  lemma PlanIsMeasurable(box: Option<Box>, plan: seq<Phase>, names: seq<PhaseName>, maxPrice: real, standing: real, deltaPct: real, i: nat)
    requires Chained(plan, names, Round3(standing), deltaPct)
    requires Preflight(box, plan, maxPrice, Some(Round3(standing))) && i < |plan|
    ensures OnGrid(plan[i].from) && OnGrid(plan[i].to) && plan[i].from != plan[i].to
    ensures plan[i].from <= maxPrice && plan[i].to <= maxPrice
    ensures plan[i].name.Raise? ==> (plan[i].to > plan[i].from <==> Drift(plan[i].from, deltaPct) > 0.0)
    ensures plan[i].name.Lower? && plan[i].from > Round3(standing) ==> plan[i].to == Round3(standing)
    ensures plan[i].name.Lower? && plan[i].from <= Round3(standing) ==>
              (plan[i].to < plan[i].from <==> Drift(plan[i].from, deltaPct) > 0.0)
    ensures 0.0 <= deltaPct <= 100.0 ==>
              && plan[i].to >= 0.0
              && (plan[i].name.Raise? ==> plan[i].to > plan[i].from)
              && (plan[i].name.Lower? ==>
                    plan[i].to < plan[i].from && (plan[i].to == Round3(standing) <==> plan[i].from > Round3(standing)))
  {
    hide Round3, OnGrid, Scaled, Drift;
    var orig, from := Round3(standing), plan[i].from;
    Round3OnGrid(standing);
    TargetOnGrid(names[i], from, orig, deltaPct);
    if i > 0 {
      TargetOnGrid(names[i - 1], plan[i - 1].from, orig, deltaPct);
    }
    Round3Fixes(from);
    Drifting(from, deltaPct);
    RoundedSide(from, Scaled(from, deltaPct));
    RoundedSide(from, Scaled(from, -deltaPct));
    if 0.0 <= deltaPct <= 100.0 {
      PlanIsNonNegative(plan, names, orig, deltaPct, i);
      NoDownDrift(from, deltaPct);
    }
  }

  lemma Drifting(from: real, pct: real)
    ensures Scaled(from, pct) >= from <==> Drift(from, pct) >= 0.0
    ensures Scaled(from, pct) <= from <==> Drift(from, pct) <= 0.0
    ensures Scaled(from, -pct) >= from <==> Drift(from, pct) <= 0.0
    ensures Scaled(from, -pct) <= from <==> Drift(from, pct) >= 0.0
  {
    assert Scaled(from, pct) == from + Drift(from, pct) / 100.0;
    assert Scaled(from, -pct) == from - Drift(from, pct) / 100.0;
  }

  lemma RoundedSide(from: real, x: real)
    requires Round3(from) == from
    ensures x >= from ==> Round3(x) >= from
    ensures x <= from ==> Round3(x) <= from
  {
    hide Round3;
    if x >= from { Round3Monotone(from, x); }
    if x <= from { Round3Monotone(x, from); }
  }

  lemma {:induction false} PlanIsNonNegative(plan: seq<Phase>, names: seq<PhaseName>, orig: real, deltaPct: real, i: nat)
    requires Chained(plan, names, orig, deltaPct) && 0.0 <= deltaPct <= 100.0 && orig >= 0.0 && i < |plan|
    ensures plan[i].from >= 0.0 && plan[i].to >= 0.0
  {
    hide Round3, Scaled;
    if i > 0 {
      PlanIsNonNegative(plan, names, orig, deltaPct, i - 1);
    }
    Scaling(plan[i].from, deltaPct);
    Round3NonNegative(Scaled(plan[i].from, deltaPct));
    Round3NonNegative(Scaled(plan[i].from, -deltaPct));
  }

  lemma Round3NonNegative(x: real)
    requires x >= 0.0
    ensures Round3(x) >= 0.0
  {
    Round3Monotone(0.0, x);
  }

  lemma Round3Negative(x: real)
    ensures Round3(x) < 0.0 <==> x < -0.0005
  {
    var y := x * 1000.0;
    assert RoundInt(y) < 0 <==> y < -0.5;
  }

  /** One phase asks for a negative price exactly when it is computed from the bid it
      starts at, and that much more or less of it lies below half a step under nothing. */
  lemma PhaseIsNegativeExactly(plan: seq<Phase>, names: seq<PhaseName>, orig: real, deltaPct: real, i: nat)
    requires Chained(plan, names, orig, deltaPct) && orig > 0.0 && i < |plan|
    ensures plan[i].to < 0.0 <==>
              if names[i].Raise? then Scaled(plan[i].from, deltaPct) < -0.0005
              else plan[i].from <= orig && Scaled(plan[i].from, -deltaPct) < -0.0005
  {
    hide Round3, Scaled;
    Round3Negative(Scaled(plan[i].from, deltaPct));
    Round3Negative(Scaled(plan[i].from, -deltaPct));
  }

  /** A lowering phase with nothing above the original to come down from: it comes first,
      or right after another lowering one. */
  predicate LowersFurther(names: seq<PhaseName>, i: nat) {
    i < |names| && names[i] == Lower && (i > 0 ==> names[i - 1] == Lower)
  }

  /** Up to the first such phase the bid is never under the original, and at it exactly there. */
  lemma {:induction false} NotUnderOriginal(plan: seq<Phase>, names: seq<PhaseName>, orig: real, deltaPct: real, i: nat)
    requires Chained(plan, names, orig, deltaPct) && orig > 0.0 && OnGrid(orig) && deltaPct >= 0.0 && i < |plan|
    requires Unknown !in names && forall k :: 0 <= k < i ==> !LowersFurther(names, k)
    requires forall k :: 0 <= k < |plan| ==> Abs(plan[k].to - plan[k].from) >= MIN_MOVE
    ensures plan[i].from >= orig
    ensures if i == 0 || names[i - 1] == Lower then plan[i].from == orig else plan[i].from > orig
    decreases i
  {
    hide Round3, Scaled, OnGrid, PhaseTarget;
    if i > 0 {
      var k := i - 1;
      NotUnderOriginal(plan, names, orig, deltaPct, k);
      assert !LowersFurther(names, k);
      assert names[k] != Unknown;
      FromOnGrid(plan, names, orig, deltaPct, k);
      LoweredOrRaised(plan[k].from, orig, deltaPct);
      assert plan[i].from == plan[k].to == PhaseTarget(names[k], plan[k].from, orig, deltaPct);
    }
  }

  lemma LoweredOrRaised(from: real, orig: real, deltaPct: real)
    requires orig > 0.0 && deltaPct >= 0.0 && from >= orig && OnGrid(from)
    ensures PhaseTarget(Raise, from, orig, deltaPct) >= from
    ensures from > orig ==> PhaseTarget(Lower, from, orig, deltaPct) == orig
  {
    hide Round3, Scaled, OnGrid, Drift;
    Round3Fixes(from);
    Drifting(from, deltaPct);
    NoDownDrift(from, deltaPct);
    RoundedSide(from, Scaled(from, deltaPct));
  }

  lemma NoDownDrift(from: real, pct: real)
    requires from >= 0.0 && pct >= 0.0
    ensures Drift(from, pct) >= 0.0
  {
  }

  lemma FromOnGrid(plan: seq<Phase>, names: seq<PhaseName>, orig: real, deltaPct: real, i: nat)
    requires Chained(plan, names, orig, deltaPct) && OnGrid(orig) && i < |plan|
    ensures OnGrid(plan[i].from)
  {
    hide OnGrid;
    if i > 0 {
      TargetOnGrid(names[i - 1], plan[i - 1].from, orig, deltaPct);
    }
  }

  lemma {:induction false} FirstLowering(names: seq<PhaseName>, i: nat) returns (f: nat)
    requires LowersFurther(names, i)
    ensures f <= i && LowersFurther(names, f) && forall k :: 0 <= k < f ==> !LowersFurther(names, k)
  {
    f := i;
    if k :| 0 <= k < i && LowersFurther(names, k) {
      f := FirstLowering(names, k);
    }
  }

  /** No percentage moves a price of nothing. */
  lemma NothingMovesNowhere(plan: seq<Phase>, names: seq<PhaseName>, orig: real, deltaPct: real, i: nat)
    requires Chained(plan, names, orig, deltaPct) && orig > 0.0 && i < |plan| && plan[i].to == 0.0
    ensures i + 1 < |plan| ==> plan[i + 1].from == plan[i + 1].to
  {
    assert Scaled(0.0, deltaPct) == 0.0 && Scaled(0.0, -deltaPct) == 0.0 && Round3(0.0) == 0.0;
  }

  /** Nothing in the preflight bounds the percentage. An accepted plan offers a negative
      price somewhere exactly when some first way down passes nothing by more than half a
      step: for a percentage of at least zero a bid lowered at the start, or twice in a row;
      for a negative one the first raise, from the original price or, after an odd number
      of lowering phases, from the price those put it up to. */
  lemma NegativePlanExactly(box: Option<Box>, plan: seq<Phase>, names: seq<PhaseName>, maxPrice: real, standing: real, deltaPct: real)
    requires Chained(plan, names, Round3(standing), deltaPct) && Unknown !in names
    requires Preflight(box, plan, maxPrice, Some(Round3(standing)))
    ensures (exists i :: 0 <= i < |plan| && plan[i].to < 0.0) <==>
              if deltaPct >= 0.0
              then (exists i :: LowersFurther(names, i)) && Scaled(Round3(standing), -deltaPct) < -0.0005
              else exists i :: FirstRaise(names, i) && Scaled(RaisedFrom(Round3(standing), deltaPct, i), deltaPct) < -0.0005
  {
    hide Round3, Scaled, Preflight, Chained, LowersFurther, FirstRaise;
    if deltaPct >= 0.0 {
      NegativeByLowering(box, plan, names, maxPrice, standing, deltaPct);
    } else {
      NegativeByRaising(box, plan, names, maxPrice, standing, deltaPct);
    }
  }

  predicate FirstRaise(names: seq<PhaseName>, i: nat) {
    i < |names| && names[i] == Raise && Raise !in names[..i]
  }

  /** Under a negative percentage a lowering phase puts the bid up and the next one puts it back. */
  function RaisedFrom(orig: real, deltaPct: real, i: nat): real {
    if i % 2 == 0 then orig else Round3(Scaled(orig, -deltaPct))
  }

  /** Before the first raise, under a negative percentage, the bid alternates. */
  lemma {:induction false} AlternatesAtFirst(plan: seq<Phase>, names: seq<PhaseName>, orig: real, deltaPct: real, i: nat)
    requires Chained(plan, names, orig, deltaPct) && orig > 0.0 && OnGrid(orig) && deltaPct < 0.0 && i < |plan|
    requires Unknown !in names && Raise !in names[..i]
    requires forall k :: 0 <= k < |plan| ==> Abs(plan[k].to - plan[k].from) >= MIN_MOVE
    ensures plan[i].from == RaisedFrom(orig, deltaPct, i) && plan[i].from >= orig
    ensures i % 2 == 1 ==> plan[i].from > orig
  {
    hide Round3, Scaled, OnGrid, PhaseTarget;
    if i > 0 {
      var k := i - 1;
      assert names[..i][..k] == names[..k] && names[..i][k] == names[k];
      assert names[k] != Raise && names[k] != Unknown;
      AlternatesAtFirst(plan, names, orig, deltaPct, k);
      assert plan[i].from == plan[k].to == PhaseTarget(Lower, plan[k].from, orig, deltaPct);
      LoweringFrom(plan[k].from, orig, deltaPct);
      NextParity(k);
    }
  }

  lemma NextParity(k: nat)
    ensures (k + 1) % 2 == 1 - k % 2
  {
  }

  lemma LoweringFrom(from: real, orig: real, deltaPct: real)
    requires orig > 0.0 && OnGrid(orig) && deltaPct < 0.0
    ensures PhaseTarget(Lower, orig, orig, deltaPct) == Round3(Scaled(orig, -deltaPct)) >= orig
    ensures from > orig ==> PhaseTarget(Lower, from, orig, deltaPct) == orig
  {
    hide Round3, Scaled, OnGrid, Drift;
    Round3Fixes(orig);
    Drifting(orig, deltaPct);
    DownDrift(orig, deltaPct);
    RoundedSide(orig, Scaled(orig, -deltaPct));
  }

  lemma DownDrift(from: real, pct: real)
    requires from > 0.0 && pct < 0.0
    ensures Drift(from, pct) < 0.0
  {
  }

  lemma {:induction false} FindFirstRaise(names: seq<PhaseName>, i: nat) returns (f: nat)
    requires i < |names| && names[i] == Raise
    ensures f <= i && FirstRaise(names, f)
  {
    f := i;
    if Raise in names[..i] {
      var k :| 0 <= k < i && names[..i][k] == Raise;
      f := FindFirstRaise(names, k);
    }
  }

  lemma NegativeByRaising(box: Option<Box>, plan: seq<Phase>, names: seq<PhaseName>, maxPrice: real, standing: real, deltaPct: real)
    requires Chained(plan, names, Round3(standing), deltaPct) && Unknown !in names && deltaPct < 0.0
    requires Preflight(box, plan, maxPrice, Some(Round3(standing)))
    ensures (exists i :: 0 <= i < |plan| && plan[i].to < 0.0) <==>
              exists i :: FirstRaise(names, i) && Scaled(RaisedFrom(Round3(standing), deltaPct, i), deltaPct) < -0.0005
  {
    hide Round3, Scaled, OnGrid, PhaseTarget;
    var orig := Round3(standing);
    Round3OnGrid(standing);
    if i :| FirstRaise(names, i) && Scaled(RaisedFrom(orig, deltaPct, i), deltaPct) < -0.0005 {
      AlternatesAtFirst(plan, names, orig, deltaPct, i);
      PhaseIsNegativeExactly(plan, names, orig, deltaPct, i);
    }
    if i :| 0 <= i < |plan| && plan[i].to < 0.0 {
      PhaseIsNegativeExactly(plan, names, orig, deltaPct, i);
      if Raise in names[..i + 1] {
        var k :| 0 <= k < i + 1 && names[..i + 1][k] == Raise;
        var f := FindFirstRaise(names, k);
        if Scaled(RaisedFrom(orig, deltaPct, f), deltaPct) >= -0.0005 {
          RaisesStayPositive(plan, names, orig, deltaPct, f, i);
        }
      } else {
        assert names[..i + 1][i] == names[i] && names[..i + 1][..i] == names[..i];
        assert names[i] != Raise;
        AlternatesAtFirst(plan, names, orig, deltaPct, i);
        OddPercent(plan[i].from, deltaPct);
      }
    }
  }

  lemma OddPercent(from: real, pct: real)
    requires from > 0.0 && pct < 0.0
    ensures Scaled(from, -pct) >= 0.0
  {
    assert from * (-pct / 100.0) >= 0.0;
  }

  /** If the first raise stays at or above nothing, so does the plan: taking a percentage up
      to a hundred never passes nothing, and a larger one that stops at nothing ends there. */
  lemma RaisesStayPositive(plan: seq<Phase>, names: seq<PhaseName>, orig: real, deltaPct: real, f: nat, i: nat)
    requires Chained(plan, names, orig, deltaPct) && orig > 0.0 && OnGrid(orig) && deltaPct < 0.0
    requires f < |plan| && i < |plan| && f <= i && Unknown !in names && FirstRaise(names, f)
    requires forall k :: 0 <= k < |plan| ==> Abs(plan[k].to - plan[k].from) >= MIN_MOVE
    requires Scaled(RaisedFrom(orig, deltaPct, f), deltaPct) >= -0.0005
    ensures plan[i].to >= 0.0
  {
    hide Round3, Scaled, OnGrid;
    if deltaPct >= -100.0 {
      StaysNonNegative(plan, names, orig, deltaPct, i);
    } else {
      AlternatesAtFirst(plan, names, orig, deltaPct, f);
      PhaseIsNegativeExactly(plan, names, orig, deltaPct, f);
      OverAHundred(plan[f].from, -deltaPct);
      assert plan[f].to == Round3(Scaled(plan[f].from, deltaPct));
      Round3Monotone(Scaled(plan[f].from, deltaPct), 0.0);
      assert Round3(0.0) == 0.0 by { Round3NonNegative(0.0); Round3Negative(0.0); ZeroOnGrid(); Round3Fixes(0.0); }
      NothingMovesNowhere(plan, names, orig, deltaPct, f);
    }
  }

  lemma {:induction false} StaysNonNegative(plan: seq<Phase>, names: seq<PhaseName>, orig: real, deltaPct: real, i: nat)
    requires Chained(plan, names, orig, deltaPct) && -100.0 <= deltaPct <= 0.0 && orig >= 0.0 && i < |plan|
    ensures plan[i].from >= 0.0 && plan[i].to >= 0.0
  {
    hide Round3, Scaled;
    if i > 0 {
      StaysNonNegative(plan, names, orig, deltaPct, i - 1);
    }
    Scaling(plan[i].from, -deltaPct);
    Round3NonNegative(Scaled(plan[i].from, deltaPct));
    Round3NonNegative(Scaled(plan[i].from, -deltaPct));
  }

  lemma NegativeByLowering(box: Option<Box>, plan: seq<Phase>, names: seq<PhaseName>, maxPrice: real, standing: real, deltaPct: real)
    requires Chained(plan, names, Round3(standing), deltaPct) && Unknown !in names && deltaPct >= 0.0
    requires Preflight(box, plan, maxPrice, Some(Round3(standing)))
    ensures (exists i :: 0 <= i < |plan| && plan[i].to < 0.0) <==>
              (exists i :: LowersFurther(names, i)) && Scaled(Round3(standing), -deltaPct) < -0.0005
  {
    hide Round3, Scaled, OnGrid, PhaseTarget;
    var orig := Round3(standing);
    Round3OnGrid(standing);
    if i :| LowersFurther(names, i) {
      var f := FirstLowering(names, i);
      NotUnderOriginal(plan, names, orig, deltaPct, f);
      PhaseIsNegativeExactly(plan, names, orig, deltaPct, f);
      if Scaled(orig, -deltaPct) >= -0.0005 {
        forall k | 0 <= k < |plan| ensures plan[k].to >= 0.0 {
          NeverNegative(plan, names, orig, deltaPct, f, k);
        }
      }
    } else {
      forall k | 0 <= k < |plan| ensures plan[k].to >= 0.0 {
        PositiveBefore(plan, names, orig, deltaPct, k);
      }
    }
  }

  lemma PositiveBefore(plan: seq<Phase>, names: seq<PhaseName>, orig: real, deltaPct: real, i: nat)
    requires Chained(plan, names, orig, deltaPct) && orig > 0.0 && OnGrid(orig) && deltaPct >= 0.0 && i < |plan|
    requires Unknown !in names && forall k :: 0 <= k <= i ==> !LowersFurther(names, k)
    requires forall k :: 0 <= k < |plan| ==> Abs(plan[k].to - plan[k].from) >= MIN_MOVE
    ensures plan[i].to >= 0.0
  {
    hide Round3, Scaled, OnGrid, Drift;
    var from := plan[i].from;
    NotUnderOriginal(plan, names, orig, deltaPct, i);
    PhaseIsNegativeExactly(plan, names, orig, deltaPct, i);
    assert !LowersFurther(names, i);
    assert names[i] != Unknown;
    Drifting(from, deltaPct);
    NoDownDrift(from, deltaPct);
  }

  lemma NeverNegative(plan: seq<Phase>, names: seq<PhaseName>, orig: real, deltaPct: real, f: nat, k: nat)
    requires Chained(plan, names, orig, deltaPct) && orig > 0.0 && OnGrid(orig) && deltaPct >= 0.0
    requires f < |plan| && k < |plan| && Unknown !in names
    requires LowersFurther(names, f) && forall j :: 0 <= j < f ==> !LowersFurther(names, j)
    requires forall j :: 0 <= j < |plan| ==> Abs(plan[j].to - plan[j].from) >= MIN_MOVE
    requires Scaled(orig, -deltaPct) >= -0.0005
    ensures plan[k].to >= 0.0
  {
    hide Round3, Scaled, OnGrid;
    if deltaPct <= 100.0 {
      PlanIsNonNegative(plan, names, orig, deltaPct, k);
    } else if k < f {
      PositiveBefore(plan, names, orig, deltaPct, k);
    } else {
      NotUnderOriginal(plan, names, orig, deltaPct, f);
      PhaseIsNegativeExactly(plan, names, orig, deltaPct, f);
      OverAHundred(orig, deltaPct);
      assert plan[f].to == Round3(Scaled(orig, -deltaPct));
      Round3Monotone(Scaled(orig, -deltaPct), 0.0);
      assert Round3(0.0) == 0.0 by { Round3NonNegative(0.0); Round3Negative(0.0); ZeroOnGrid(); Round3Fixes(0.0); }
      NothingMovesNowhere(plan, names, orig, deltaPct, f);
    }
  }

  lemma ZeroOnGrid()
    ensures OnGrid(0.0)
  {
  }

  lemma OverAHundred(x: real, pct: real)
    requires x > 0.0 && pct > 100.0
    ensures Scaled(x, -pct) <= 0.0
  {
    assert x * (pct / 100.0 - 1.0) >= 0.0;
  }

  /** Such a plan does pass. */
  lemma NegativeBidPassesPreflight()
    ensures var plan := [Phase(Lower, 0.1, -0.1)];
            && Chained(plan, [Lower], Round3(0.1), 200.0)
            && Preflight(Some(Box(true, true, Some(1), Some(0.1))), plan, 1.0, Some(Round3(0.1)))
  {
    assert Round3(0.1) == 0.1;
    assert Round3(-0.1) == -0.1;
  }

  lemma TargetOnGrid(name: PhaseName, cur: real, orig: real, deltaPct: real)
    requires OnGrid(orig)
    ensures OnGrid(PhaseTarget(name, cur, orig, deltaPct))
  {
    hide Round3, OnGrid;
    Round3OnGrid(Scaled(cur, deltaPct));
    Round3OnGrid(Scaled(cur, -deltaPct));
  }

  lemma Scaling(x: real, pct: real)
    requires x >= 0.0 && 0.0 <= pct <= 100.0
    ensures 0.0 <= Scaled(x, -pct) <= x <= Scaled(x, pct)
  {
    assert x * (pct / 100.0) >= 0.0 && x * (1.0 - pct / 100.0) >= 0.0;
  }

  // ---- streaks of reads -----------------------------------------------------------------

  /** The running state of the flip loop: consecutive new reads, and the first of them. */
  datatype Flip = Flip(streak: nat, first: Option<nat>)

  /** Only an old read breaks a streak; other and failed reads leave it standing. */
  function FlipOf(seen: seq<Matched>): Flip {
    if seen == [] then Flip(0, None)
    else
      var n := |seen| - 1;
      var f := FlipOf(seen[..n]);
      match seen[n]
      case New => Flip(f.streak + 1, if f.first.None? then Some(n) else f.first)
      case Old => Flip(0, None)
      case _ => f
  }

  function Count(seen: seq<Matched>, m: Matched): nat {
    if seen == [] then 0 else Count(seen[..|seen| - 1], m) + if seen[|seen| - 1] == m then 1 else 0
  }

  /** The first loop exit: confirmed by the last read and not before. */
  predicate Confirms(seen: seq<Matched>, confirm: nat) {
    seen != [] && FlipOf(seen).streak >= confirm && Undecided(seen[..|seen| - 1], confirm)
  }

  predicate Undecided(seen: seq<Matched>, confirm: nat) {
    forall n :: 0 <= n <= |seen| ==> FlipOf(seen[..n]).streak < confirm
  }

  /** A window that ends with the last read, starts with a new read and holds
      `confirm` of them and no old one. */
  predicate Window(seen: seq<Matched>, first: nat, confirm: nat) {
    && first < |seen| && seen[first] == New && Old !in seen[first..]
    && Count(seen[first..], New) == confirm
  }

  lemma CountLast(seen: seq<Matched>, first: nat, m: Matched)
    requires first < |seen|
    ensures Count(seen[first..], m) == Count(seen[first..|seen| - 1], m) + if seen[|seen| - 1] == m then 1 else 0
  {
    var tail := seen[first..];
    assert tail[..|tail| - 1] == seen[first..|seen| - 1];
  }

  /** Every new read before `m` has an old one after it. */
  predicate Superseded(seen: seq<Matched>, m: nat) {
    forall i :: 0 <= i < m && i < |seen| && seen[i] == New ==> Old in seen[i..]
  }

  lemma SupersededSnoc(init: seq<Matched>, x: Matched, m: nat)
    requires m <= |init|
    ensures Superseded(init, m) ==> Superseded(init + [x], m)
    ensures x == Old ==> Superseded(init + [x], |init| + 1)
    ensures x != New && Superseded(init, |init|) ==> Superseded(init + [x], |init| + 1)
  {
    forall i | 0 <= i <= |init| ensures (init + [x])[i..] == init[i..] + [x] {
    }
  }

  lemma WindowSnoc(init: seq<Matched>, x: Matched, first: nat, c: nat)
    requires Window(init, first, c) && x != Old
    ensures Window(init + [x], first, if x == New then c + 1 else c)
  {
    var seen := init + [x];
    CountLast(seen, first, New);
    assert seen[first..|init|] == init[first..] && seen[first..] == init[first..] + [x];
  }

  lemma WindowOfOne(init: seq<Matched>)
    ensures Window(init + [New], |init|, 1)
  {
    assert (init + [New])[|init|..] == [New];
    assert Count([New], New) == 1 by { assert [New][..0] == []; }
  }

  /** The streak counts the new reads since the last old one, from the first of them. */
  lemma {:induction false} StreakIsAWindow(seen: seq<Matched>)
    ensures FlipOf(seen).streak == 0 <==> FlipOf(seen).first.None?
    ensures FlipOf(seen).streak > 0 ==> Window(seen, FlipOf(seen).first.value, FlipOf(seen).streak)
    ensures FlipOf(seen).first.Some? ==> FlipOf(seen).first.value < |seen|
    ensures Superseded(seen, if FlipOf(seen).first.Some? then FlipOf(seen).first.value else |seen|)
  {
    hide Window, Superseded, FlipOf;
    if seen == [] {
      FlipEmpty();
      assert Superseded([], 0) by { NothingSuperseded(); }
    } else {
      var n := |seen| - 1;
      var init, x := seen[..n], seen[n];
      var f := FlipOf(init);
      assert seen == init + [x];
      FlipOfSnoc(init, x);
      StreakIsAWindow(init);
      SupersededSnoc(init, x, if f.first.Some? then f.first.value else n);
      if x == New && f.first.None? {
        WindowOfOne(init);
      } else if x != Old && f.streak > 0 {
        WindowSnoc(init, x, f.first.value, f.streak);
      }
    }
  }

  lemma NothingSuperseded()
    ensures Superseded([], 0)
  {
  }

  /** "Flipped" means exactly this: `confirm` new reads and not one old read from the
      reported first read on, the last of them just now. */
  lemma FlippedExactly(seen: seq<Matched>, confirm: nat)
    requires confirm > 0
    ensures Confirms(seen, confirm) ==>
              && FlipOf(seen).first.Some? && Window(seen, FlipOf(seen).first.value, confirm)
              && seen[|seen| - 1] == New
    ensures FlipOf(seen).streak >= confirm <==> exists first, c :: c >= confirm && Window(seen, first, c)
  {
    hide FlipOf, Window;
    StreakIsAWindow(seen);
    var f := FlipOf(seen);
    if Confirms(seen, confirm) {
      var init := seen[..|seen| - 1];
      assert seen == init + [seen[|seen| - 1]] && init[..|init|] == init;
      assert FlipOf(init).streak < confirm;
      FlipOfSnoc(init, seen[|seen| - 1]);
    }
    if f.streak >= confirm {
      assert Window(seen, f.first.value, f.streak);
    }
    if first, c :| c >= confirm && Window(seen, first, c) {
      WindowWithinStreak(seen, first, c);
    }
  }

  lemma WindowWithinStreak(seen: seq<Matched>, first: nat, c: nat)
    requires Window(seen, first, c)
    ensures FlipOf(seen).streak >= c
  {
    hide FlipOf, Count;
    StreakIsAWindow(seen);
    var f := FlipOf(seen);
    assert f.streak > 0 && f.first.value <= first;
    CountSuffix(seen, f.first.value, first);
  }

  lemma {:induction false} CountSuffix(seen: seq<Matched>, i: nat, j: nat)
    requires i <= j <= |seen|
    ensures Count(seen[i..], New) >= Count(seen[j..], New)
    decreases |seen|
  {
    if j < |seen| {
      var n := |seen| - 1;
      CountLast(seen, i, New);
      CountLast(seen, j, New);
      CountSuffix(seen[..n], i, j);
      assert seen[..n][i..] == seen[i..n] && seen[..n][j..] == seen[j..n];
    }
  }

  /** The baseline's streak: any read that is neither the old bid nor a failure breaks it. */
  function SteadyOf(seen: seq<Matched>): nat {
    if seen == [] then 0
    else
      var n := |seen| - 1;
      match seen[n]
      case Old => SteadyOf(seen[..n]) + 1
      case Unread => SteadyOf(seen[..n])
      case _ => 0
  }

  predicate Steadies(seen: seq<Matched>, confirm: nat) {
    seen != [] && SteadyOf(seen) >= confirm && Unsteady(seen[..|seen| - 1], confirm)
  }

  predicate Unsteady(seen: seq<Matched>, confirm: nat) {
    forall n :: 0 <= n <= |seen| ==> SteadyOf(seen[..n]) < confirm
  }

  /** A tail of reads that shows our bid `confirm` times and no other price. */
  predicate Echoing(seen: seq<Matched>, i: nat, confirm: nat) {
    i <= |seen| && New !in seen[i..] && Other !in seen[i..] && Count(seen[i..], Old) >= confirm
  }

  lemma EchoingLast(seen: seq<Matched>, i: nat, confirm: nat)
    requires i < |seen| && confirm > 0
    ensures var n := |seen| - 1;
            Echoing(seen, i, confirm) <==>
              (seen[n] == Unread && Echoing(seen[..n], i, confirm)) || (seen[n] == Old && Echoing(seen[..n], i, confirm - 1))
  {
    var n := |seen| - 1;
    CountLast(seen, i, Old);
    assert seen[i..n] == seen[..n][i..];
    assert seen[i..] == seen[i..n] + [seen[n]];
  }

  /** The floor stably echoes our bid: the last `confirm` readable floors all did. */
  lemma {:induction false} StableExactly(seen: seq<Matched>, confirm: nat)
    requires confirm > 0
    ensures SteadyOf(seen) >= confirm <==> exists i: nat :: Echoing(seen, i, confirm)
  {
    hide Echoing;
    forall i: nat | Echoing(seen, i, confirm) ensures i < |seen| {
      EchoingStarts(seen, i, confirm);
    }
    if seen != [] {
      var init := seen[..|seen| - 1];
      StableExactly(init, confirm);
      if confirm > 1 {
        StableExactly(init, confirm - 1);
      } else {
        assert Echoing(init, |init|, 0) by { EchoesNothing(init); }
      }
      var c := if Last(seen) == Old then confirm - 1 else confirm;
      if Last(seen) in {Old, Unread} && SteadyOf(init) >= c {
        var i: nat :| Echoing(init, i, c);
        EchoingStarts(init, i, c);
        EchoingLast(seen, i, confirm);
      }
      if i: nat :| Echoing(seen, i, confirm) {
        EchoingLast(seen, i, confirm);
      }
    }
  }

  function Last(seen: seq<Matched>): Matched
    requires seen != []
  {
    seen[|seen| - 1]
  }

  lemma EchoesNothing(seen: seq<Matched>)
    ensures Echoing(seen, |seen|, 0)
  {
  }

  lemma EchoingStarts(seen: seq<Matched>, i: nat, confirm: nat)
    requires Echoing(seen, i, confirm)
    ensures i <= |seen| && (confirm > 0 ==> i < |seen|)
  {
  }

  // ---- the outside world ---------------------------------------------------------------

  /** What a PUT meets: it is applied and acknowledged, refused (perhaps applied all the
      same), or cut short by an exception before the probe could note the time. */
  datatype Reply = Acknowledged | Refused(applied: bool) | Raised(applied: bool)

  /** One PUT as the server saw it. */
  datatype Put = Put(begin: real, end: real, price: real, reply: Reply)

  predicate Applied(put: Put) { put.reply.Acknowledged? || put.reply.applied }

  /** Everything the probe does not control, by the number of the operation: the
      floor read, the reply, time lost, and whether a signal arrives just there. */
  datatype Script = Script(floor: nat -> Option<real>, reply: nat -> Reply, delay: nat -> nat, signal: nat -> bool)

  /** The market's side: its clock, the bid it holds and the PUTs it has had. */
  class Market {
    const script: Script
    var ops: nat
    var clock: real
    var bid: real
    var puts: seq<Put>
    var served: seq<Option<real>>
    var interrupted: bool

    constructor (script: Script, clock: real, bid: real)
      ensures this.script == script && this.clock == clock && this.bid == bid && puts == [] && served == [] && !interrupted
    {
      this.script, this.ops, this.clock, this.bid := script, 0, clock, bid;
      this.puts, this.served, this.interrupted := [], [], false;
    }

    /** A signal may arrive between any two steps. */
    method Signal() returns (aborted: bool)
      modifies this`ops, this`clock, this`interrupted
      ensures interrupted == (old(interrupted) || aborted)
      ensures clock >= old(clock)
    {
      aborted := script.signal(ops);
      interrupted := interrupted || aborted;
      clock := clock + script.delay(ops) as real;
      ops := ops + 1;
    }

    /** An interrupted sleep may be short. */
    method Sleep(seconds: real) returns (aborted: bool)
      modifies this`ops, this`clock, this`interrupted
      ensures interrupted == (old(interrupted) || aborted)
      ensures clock >= old(clock) && (!aborted ==> clock >= old(clock) + seconds)
    {
      aborted := Signal();
      if !aborted && seconds > 0.0 {
        clock := clock + seconds;
      }
    }

    /** A floor read, on record as served. */
    method Floor() returns (floor: Option<real>, aborted: bool)
      modifies this`ops, this`clock, this`interrupted, this`served
      ensures served == old(served) + [floor]
      ensures interrupted == (old(interrupted) || aborted)
      ensures clock >= old(clock)
    {
      floor := script.floor(ops);
      served := served + [floor];
      aborted := Signal();
    }

    method PutBid(price: real) returns (reply: Reply)
      modifies this
      ensures clock >= old(clock)
      ensures puts == old(puts) + [Put(old(clock), clock, price, reply)] && served == old(served)
      ensures bid == if Applied(Put(old(clock), clock, price, reply)) then price else old(bid)
      ensures interrupted == (old(interrupted) || reply.Raised?)
    {
      reply := script.reply(ops);
      var begin := clock;
      clock := clock + script.delay(ops) as real;
      ops := ops + 1;
      puts := puts + [Put(begin, clock, price, reply)];
      interrupted := interrupted || reply.Raised?;
      if reply.Acknowledged? || reply.applied {
        bid := price;
      }
    }
  }

  // ---- the probe --------------------------------------------------------------------------

  datatype Move = Moved | MoveRefused | OverCap | MoveAborted

  /** `Escaped`: a signal outside the guarded PUT, in the back-off between two attempts
      say, leaves `restore` without an answer. */
  datatype Restore = Restored | GaveUp | Escaped

  /** Two PUTs are a minute apart unless the first was cut short. */
  predicate Spaced(puts: seq<Put>) {
    forall i, j :: 0 <= i < j < |puts| && !puts[i].reply.Raised? ==> puts[j].begin >= puts[i].end + BID_RATE_LIMIT_S
  }

  class EchoProbe {
    const market: Market
    const standing: real
    const origBid: real
    const maxPrice: real
    const interval: real
    const maxWait: real
    const baselineWait: real
    var currentBid: real
    var bidUncertain: bool
    var lastPutTs: Option<real>

    /** No PUT has taken effect yet. */
    ghost predicate Untouched()
      reads this, market
    {
      market.bid == standing && !Touched([], market.puts)
    }

    /** Belief and fact: the bid we think we hold is the one the server holds, up to
        the rounding of a standing bid that no PUT has replaced. */
    ghost predicate Believed()
      reads this, market
    {
      market.bid == currentBid || (currentBid == origBid && Untouched())
    }

    /** Whenever the probe is not uncertain, it is right. */
    ghost predicate Tracks()
      reads this, market
    {
      !bidUncertain ==> Believed()
    }

    /** What survives a restore that failed: the bid is one of the two. */
    ghost predicate TracksLoosely()
      reads this, market
    {
      !bidUncertain ==> Believed() || market.bid == origBid
    }

    ghost predicate Paced()
      reads this, market
    {
      && Spaced(market.puts)
      && forall i :: 0 <= i < |market.puts| ==>
           && market.puts[i].price <= maxPrice
           && (!market.puts[i].reply.Raised? ==> lastPutTs.Some? && market.puts[i].end <= lastPutTs.value)
    }

    constructor (market: Market, standing: real, maxPrice: real, interval: real, maxWait: real, baselineWait: real)
      requires market.bid == standing && market.puts == []
      ensures this.market == market && this.standing == standing && this.maxPrice == maxPrice
      ensures this.interval == interval && this.maxWait == maxWait && this.baselineWait == baselineWait
      ensures origBid == Round3(standing) && currentBid == origBid && !bidUncertain
      ensures Tracks() && Paced()
    {
      this.market, this.standing, this.maxPrice := market, standing, maxPrice;
      this.interval, this.maxWait, this.baselineWait := interval, maxWait, baselineWait;
      origBid, currentBid, bidUncertain, lastPutTs := Round3(standing), Round3(standing), false, None;
    }

    /** Keeps the spacing between two PUTs; a signal may end the wait early. */
    method AwaitTurn() returns (aborted: bool)
      modifies market`ops, market`clock, market`interrupted
      ensures market.clock >= old(market.clock)
      ensures market.interrupted == (old(market.interrupted) || aborted)
      ensures !aborted && lastPutTs.Some? ==> market.clock >= lastPutTs.value + BID_RATE_LIMIT_S
    {
      aborted := false;
      if lastPutTs.Some? {
        var wait := BID_RATE_LIMIT_S - (market.clock - lastPutTs.value);
        if wait > 0.0 {
          aborted := market.Sleep(wait);
        }
      }
    }

    /** One PUT, and the note of when it returned, unless it was cut short. */
    method PutNoted(price: real) returns (reply: Reply)
      requires Paced() && price <= maxPrice
      requires lastPutTs.Some? ==> market.clock >= lastPutTs.value + BID_RATE_LIMIT_S
      modifies this`lastPutTs, market
      ensures Paced() && market.clock >= old(market.clock)
      ensures |market.puts| == |old(market.puts)| + 1 && old(market.puts) <= market.puts
      ensures var put := market.puts[|old(market.puts)|];
              && put.price == price && put.reply == reply
              && market.bid == if Applied(put) then price else old(market.bid)
      ensures market.served == old(market.served)
      ensures market.interrupted == (old(market.interrupted) || reply.Raised?)
    {
      reply := market.PutBid(price);
      if !reply.Raised? {
        lastPutTs := Some(market.clock);
      }
    }

    /** The only place a phase's price is PUT. The cap is tested again, the spacing
        kept, and wherever a signal strikes the probe is uncertain or right. */
    method MoveBid(target: real) returns (result: Move)
      requires Tracks() && Paced()
      modifies this, market
      ensures Tracks() && Paced()
      ensures result.Moved? ==> !bidUncertain && currentBid == Round3(target) == market.bid
      ensures result.MoveRefused? ==> bidUncertain
      ensures result.Moved? || result.MoveRefused? ==>
                && |market.puts| == |old(market.puts)| + 1
                && market.puts[|old(market.puts)|].price == Round3(target)
                && var reply := market.puts[|old(market.puts)|].reply;
                   if result.Moved? then reply.Acknowledged? else reply.Refused?
      ensures old(market.interrupted) || result.MoveAborted? <==> market.interrupted
      ensures market.served == old(market.served)
      ensures result.OverCap? <==> Round3(target) > maxPrice
      ensures result.OverCap? ==> market.puts == old(market.puts) && market.bid == old(market.bid)
      ensures old(market.puts) <= market.puts && |market.puts| <= |old(market.puts)| + 1
      ensures market.clock >= old(market.clock)
    {
      hide Round3;
      var price := Round3(target);
      if price > maxPrice {
        return OverCap;
      }
      var aborted := AwaitTurn();
      if aborted {
        return MoveAborted;
      }
      bidUncertain := true;
      var reply := PutNoted(price);
      if reply.Raised? {
        return MoveAborted;
      }
      aborted := market.Signal();
      if aborted {
        return MoveAborted;
      }
      if reply.Acknowledged? {
        currentBid := price;
        aborted := market.Signal();
        if aborted {
          return MoveAborted;
        }
        bidUncertain := false;
        return Moved;
      }
      result := MoveRefused;
    }

    /** Puts the box back on its starting price. When it says so the server holds that
        price, or never left the standing bid it was rounded from. It does not mark
        the bid uncertain itself: after a failure belief and fact part exactly when
        an unacknowledged attempt took effect behind a bid the probe was sure of. */
    method RestoreBid() returns (result: Restore)
      requires TracksLoosely() && Paced() && origBid <= maxPrice
      modifies this, market
      ensures TracksLoosely() && Paced()
      ensures result.Restored? ==> currentBid == origBid && !bidUncertain && (market.bid == origBid || Untouched())
      ensures old(market.puts) <= market.puts && |market.puts| <= |old(market.puts)| + RESTORE_ATTEMPTS
      ensures forall i :: |old(market.puts)| <= i < |market.puts| ==> market.puts[i].price == origBid
      ensures result.Escaped? ==> market.interrupted
      ensures result.GaveUp? && !market.interrupted ==>
                && |market.puts| == |old(market.puts)| + RESTORE_ATTEMPTS
                && forall i :: |old(market.puts)| <= i < |market.puts| ==> market.puts[i].reply.Refused?
      ensures old(Tracks()) && !result.Restored? ==>
                (Tracks() <==> bidUncertain || currentBid == origBid || !Touched(old(market.puts), market.puts))
    {
      hide Spaced;
      if currentBid == origBid && !bidUncertain {
        return Restored;
      }
      ghost var before := market.puts;
      for attempt := 1 to RESTORE_ATTEMPTS + 1
        invariant Paced() && before <= market.puts && |market.puts| <= |before| + attempt - 1
        invariant forall i :: |before| <= i < |market.puts| ==> market.puts[i].price == origBid
        invariant currentBid == old(currentBid) && bidUncertain == old(bidUncertain)
        invariant market.bid == if Touched(before, market.puts) then origBid else old(market.bid)
        invariant !market.interrupted ==> |market.puts| == |before| + attempt - 1
        invariant !market.interrupted ==> forall i :: |before| <= i < |market.puts| ==> market.puts[i].reply.Refused?
      {
        ghost var had := market.puts;
        var step := RestoreOnce();
        TouchedGrows(before, had, market.puts);
        if step != GaveUp {
          return step;
        }
        if attempt < RESTORE_ATTEMPTS {
          var aborted := market.Sleep(RESTORE_BACKOFF_S);
          if aborted {
            return Escaped;
          }
        }
      }
      result := GaveUp;
    }

    /** One attempt; `GaveUp` sends the caller to the next one. */
    method RestoreOnce() returns (result: Restore)
      requires Paced() && origBid <= maxPrice
      modifies this, market
      ensures Paced() && old(market.puts) <= market.puts && |market.puts| <= |old(market.puts)| + 1
      ensures |market.puts| > |old(market.puts)| ==> market.puts[|old(market.puts)|].price == origBid
      ensures market.bid == if Touched(old(market.puts), market.puts) then origBid else old(market.bid)
      ensures result.Restored? ==> currentBid == origBid && !bidUncertain && Touched(old(market.puts), market.puts)
      ensures !result.Restored? ==> bidUncertain == old(bidUncertain)
      ensures result.GaveUp? ==> currentBid == old(currentBid)
      ensures old(market.interrupted) || result.Escaped? ==> market.interrupted
      ensures result.GaveUp? && !market.interrupted ==>
                |market.puts| == |old(market.puts)| + 1 && market.puts[|old(market.puts)|].reply.Refused?
      ensures result.Escaped? && currentBid != old(currentBid) ==> currentBid == origBid && Touched(old(market.puts), market.puts)
    {
      var aborted := AwaitTurn();
      if aborted {
        return GaveUp;
      }
      ghost var had := market.puts;
      var reply := PutNoted(origBid);
      assert Touched(had, market.puts) <==> Applied(market.puts[|had|]);
      if reply.Raised? {
        return GaveUp;
      }
      aborted := market.Signal();
      if aborted {
        return Escaped;
      }
      if !reply.Acknowledged? {
        return GaveUp;
      }
      currentBid := origBid;
      aborted := market.Signal();
      if aborted {
        return Escaped;
      }
      bidUncertain := false;
      result := Restored;
    }

    /** One floor read, classified; the journal stamps it. */
    method Poll(from: real, to: real) returns (matched: Matched, ts: real, aborted: bool)
      modifies market`ops, market`clock, market`interrupted, market`served
      ensures |market.served| == |old(market.served)| + 1 && old(market.served) <= market.served
      ensures matched == ClassifyFloor(market.served[|old(market.served)|], from, to)
      ensures market.clock == ts >= old(market.clock)
      ensures market.interrupted == (old(market.interrupted) || aborted)
    {
      var floor;
      floor, aborted := market.Floor();
      matched, ts := ClassifyFloor(floor, from, to), market.clock;
    }

    /** Polls until the floor stably echoes the bid we hold. It says "stable" at the
        first poll where it can, otherwise only once the wait is over, and the number
        of polls is bounded by the wait whatever the market does. */
    method Baseline(from: real, to: real) returns (result: BaselineResult, seen: seq<Matched>)
      requires interval >= INTERVAL_FLOOR_S
      modifies market`ops, market`clock, market`interrupted, market`served
      ensures old(market.served) <= market.served && ReadOff(seen, market.served[|old(market.served)|..], from, to)
      ensures !result.BaselineAborted? ==> |market.served| == |old(market.served)| + |seen|
      ensures market.clock >= old(market.clock)
      ensures result.Stable? ==> Steadies(seen, CONFIRM_READS)
      ensures !result.BaselineAborted? ==> (result.NoEcho? <==> Old !in seen)
      ensures result.Unstable? || result.NoEcho? ==>
                && Unsteady(seen, CONFIRM_READS)
                && market.clock - old(market.clock) >= baselineWait
      ensures |seen| >= 2 ==> Polled(|seen| - 2, interval) < baselineWait
      ensures market.interrupted == (old(market.interrupted) || result.BaselineAborted?)
    {
      hide Polled, ClassifyFloor, SteadyOf, Unsteady, Steadies;
      SteadyEmpty();
      var t0 := market.clock;
      var streak, matches := 0, 0;
      seen := [];
      PolledZero(interval);
      while true
        invariant market.clock >= t0 + Polled(|seen|, interval)
        invariant |seen| > 0 ==> Polled(|seen| - 1, interval) < baselineWait
        invariant old(market.served) <= market.served && |market.served| == |old(market.served)| + |seen|
        invariant ReadOff(seen, market.served[|old(market.served)|..], from, to)
        invariant 0 <= streak <= matches
        invariant streak == SteadyOf(seen) && (matches > 0 <==> Old in seen)
        invariant Unsteady(seen, CONFIRM_READS) && market.interrupted == old(market.interrupted)
        decreases baselineWait - (market.clock - t0)
      {
        var matched, _, aborted := Poll(from, to);
        PolledNext(|seen| - 2, interval);
        if aborted {
          return BaselineAborted, seen;
        }
        ghost var had, floors := seen, market.served[|old(market.served)|..];
        seen := seen + [matched];
        ReadOn(had, floors, from, to, matched);
        SteadyGrows(had, matched, CONFIRM_READS);
        match matched {
          case Old => matches, streak := matches + 1, streak + 1;
          case New => streak := 0;
          case Other => streak := 0;
          case Unread =>
        }
        if streak >= CONFIRM_READS {
          return Stable, seen;
        }
        if market.clock - t0 >= baselineWait {
          return if matches > 0 then Unstable else NoEcho, seen;
        }
        PolledNext(|had|, interval);
        aborted := market.Sleep(interval);
        if aborted {
          return BaselineAborted, seen;
        }
      }
    }

    /** Polls for the flip. It reports one at the first poll that confirms it, with the
        first read's time; otherwise it gives up only after the full wait. */
    method AwaitFlip(from: real, to: real, moved: real) returns (result: Outcome, seen: seq<Matched>, stamps: seq<real>)
      requires interval >= INTERVAL_FLOOR_S && moved == market.clock
      modifies market`ops, market`clock, market`interrupted, market`served
      ensures old(market.served) <= market.served && ReadOff(seen, market.served[|old(market.served)|..], from, to)
      ensures !result.Aborted? ==> |market.served| == |old(market.served)| + |seen|
      ensures |stamps| == |seen| && market.clock >= old(market.clock)
      ensures result.Flipped? ==>
                && Confirms(seen, CONFIRM_READS) && FlipOf(seen).first.Some? && FlipOf(seen).first.value < |seen|
                && result.lag == stamps[FlipOf(seen).first.value] - moved
                && result.confirmLag == stamps[|seen| - 1] - moved
      ensures result.Censored? ==>
                && Undecided(seen, CONFIRM_READS)
                && market.clock - moved >= maxWait
      ensures result.Flipped? || result.Censored? || result.Aborted?
      ensures |seen| >= 2 ==> Polled(|seen| - 2, interval) < maxWait
      ensures market.interrupted == (old(market.interrupted) || result.Aborted?)
    {
      hide Polled, ClassifyFloor, FlipOf, Undecided, Confirms;
      FlipEmpty();
      var streak, first: Option<real> := 0, None;
      seen, stamps := [], [];
      PolledZero(interval);
      while true
        invariant |stamps| == |seen| && market.clock >= moved + Polled(|seen|, interval)
        invariant |seen| > 0 ==> Polled(|seen| - 1, interval) < maxWait
        invariant old(market.served) <= market.served && |market.served| == |old(market.served)| + |seen|
        invariant ReadOff(seen, market.served[|old(market.served)|..], from, to)
        invariant streak == FlipOf(seen).streak
        invariant FlipOf(seen).first.Some? <==> first.Some?
        invariant first.Some? ==> FlipOf(seen).first.value < |seen| && first.value == stamps[FlipOf(seen).first.value]
        invariant streak > 0 ==> first.Some?
        invariant Undecided(seen, CONFIRM_READS) && market.interrupted == old(market.interrupted)
        decreases maxWait - (market.clock - moved)
      {
        var matched, ts, aborted := Poll(from, to);
        PolledNext(|seen| - 2, interval);
        if aborted {
          return Aborted, seen, stamps;
        }
        ghost var had, floors := seen, market.served[|old(market.served)|..];
        ReadOn(had, floors, from, to, matched);
        seen, stamps := seen + [matched], stamps + [ts];
        FlipGrows(had, matched, CONFIRM_READS);
        match matched {
          case New =>
            streak := streak + 1;
            if first.None? {
              first := Some(ts);
            }
          case Old => streak, first := 0, None;
          case _ =>
        }
        if streak >= CONFIRM_READS {
          return Flipped(first.value - moved, ts - moved), seen, stamps;
        }
        if market.clock - moved >= maxWait {
          return Censored, seen, stamps;
        }
        PolledNext(|had|, interval);
        aborted := market.Sleep(interval);
        if aborted {
          return Aborted, seen, stamps;
        }
      }
    }

    /** Baseline, move, watch, on what the market served. No echo is reported exactly when no
        baseline read was our bid; a flip exactly when the reads after the move confirm
        it; and a flip or a censored wait only of a move the server acknowledged, whose bid
        then still stands. */
    method RunPhase(phase: Phase) returns (outcome: Outcome, base: seq<Matched>, flips: seq<Matched>)
      requires Tracks() && Paced() && interval >= INTERVAL_FLOOR_S
      modifies this, market
      ensures Tracks() && Paced() && old(market.puts) <= market.puts
      ensures old(market.served) <= market.served
      ensures ReadOff(base, market.served[|old(market.served)|..], phase.from, phase.to)
      ensures flips != [] ==>
                && |old(market.served)| + |base| <= |market.served|
                && ReadOff(flips, market.served[|old(market.served)| + |base|..], phase.from, phase.to)
      ensures !outcome.Aborted? ==> (outcome.NoEchoObserved? <==> Old !in base)
      ensures outcome.Flipped? ==> Confirms(flips, CONFIRM_READS)
      ensures outcome.Censored? ==> Undecided(flips, CONFIRM_READS)
      ensures outcome.Flipped? || outcome.Censored? ==>
                market.bid == currentBid == Round3(phase.to) && !bidUncertain && |market.puts| == |old(market.puts)| + 1
      ensures outcome.NoEchoObserved? ==> market.puts == old(market.puts) && market.bid == old(market.bid)
      ensures outcome.BidMoveFailed? ==> market.puts != [] && market.puts[|market.puts| - 1].reply.Refused? && bidUncertain
      ensures outcome.RefusedOverCap? ==> Round3(phase.to) > maxPrice && market.puts == old(market.puts)
      ensures Round3(phase.to) > maxPrice ==> outcome.RefusedOverCap? || outcome.NoEchoObserved? || outcome.Aborted?
      ensures market.interrupted == (old(market.interrupted) || outcome.Aborted?)
    {
      hide ReadOff, Confirms, Undecided, Steadies, Unsteady, Spaced, Polled;
      NothingRead(phase);
      flips := [];
      var result;
      result, base := Baseline(phase.from, phase.to);
      if result.NoEcho? {
        return NoEchoObserved, base, [];
      }
      if result.BaselineAborted? {
        return Aborted, base, [];
      }
      ghost var servedThen := market.served;
      var move := MoveBid(phase.to);
      assert market.served == servedThen;
      match move {
        case MoveRefused => return BidMoveFailed, base, [];
        case OverCap => return RefusedOverCap, base, [];
        case MoveAborted => return Aborted, base, [];
        case Moved =>
      }
      var moved := market.clock;
      var stamps;
      outcome, flips, stamps := AwaitFlip(phase.from, phase.to, moved);
      ReadOffLonger(base, servedThen[|old(market.served)|..], market.served[|old(market.served)|..], phase.from, phase.to);
    }

    /** Phase after phase, until one says that the next can measure nothing. */
    method RunPlan(plan: seq<Phase>) returns (outcomes: seq<Outcome>)
      requires Tracks() && Paced() && interval >= INTERVAL_FLOOR_S
      modifies this, market
      ensures Tracks() && Paced()
      ensures |outcomes| <= |plan| && |market.puts| >= |old(market.puts)| + |outcomes| - 1
      ensures outcomes != [] && (outcomes[|outcomes| - 1].Flipped? || outcomes[|outcomes| - 1].Censored?) ==>
                market.bid == Round3(plan[|outcomes| - 1].to) && |market.puts| == |old(market.puts)| + |outcomes|
      ensures forall i :: 0 <= i < |outcomes| - 1 ==> outcomes[i].Flipped? || outcomes[i].Censored?
      ensures |outcomes| < |plan| ==> outcomes != [] && !outcomes[|outcomes| - 1].Flipped? && !outcomes[|outcomes| - 1].Censored?
    {
      outcomes := [];
      for i := 0 to |plan|
        invariant Tracks() && Paced() && |outcomes| == i
        invariant forall k :: 0 <= k < i ==> outcomes[k].Flipped? || outcomes[k].Censored?
        invariant |market.puts| == |old(market.puts)| + i
        invariant i > 0 ==> market.bid == Round3(plan[i - 1].to)
      {
        var outcome, _, _ := RunPhase(plan[i]);
        outcomes := outcomes + [outcome];
        if !outcome.Flipped? && !outcome.Censored? {
          return;
        }
      }
    }
  }

  /** These reads are what the floors served were. */
  predicate ReadOff(seen: seq<Matched>, floors: seq<Option<real>>, from: real, to: real) {
    |seen| <= |floors| && forall i :: 0 <= i < |seen| ==> seen[i] == ClassifyFloor(floors[i], from, to)
  }

  lemma NothingRead(phase: Phase)
    ensures forall floors :: ReadOff([], floors, phase.from, phase.to)
  {
  }

  lemma ReadOffLonger(seen: seq<Matched>, floors: seq<Option<real>>, more: seq<Option<real>>, from: real, to: real)
    requires ReadOff(seen, floors, from, to) && floors <= more
    ensures ReadOff(seen, more, from, to)
  {
  }

  lemma ReadOn(had: seq<Matched>, floors: seq<Option<real>>, from: real, to: real, matched: Matched)
    requires |floors| == |had| + 1 && ReadOff(had, floors, from, to)
    requires matched == ClassifyFloor(floors[|had|], from, to)
    ensures ReadOff(had + [matched], floors, from, to)
  {
  }

  datatype BaselineResult = Stable | Unstable | NoEcho | BaselineAborted

  datatype Outcome =
    | Flipped(lag: real, confirmLag: real)
    | Censored
    | NoEchoObserved
    | BidMoveFailed
    | RefusedOverCap
    | Aborted

  function Polled(n: int, interval: real): real { n as real * interval }

  lemma PolledZero(interval: real)
    ensures Polled(0, interval) == 0.0
  {
  }

  lemma PolledNext(n: int, interval: real)
    ensures Polled(n + 1, interval) == Polled(n, interval) + interval
  {
  }

  lemma SteadyEmpty()
    ensures SteadyOf([]) == 0 && Unsteady([], CONFIRM_READS)
  {
  }

  lemma FlipEmpty()
    ensures FlipOf([]) == Flip(0, None) && Undecided([], CONFIRM_READS)
  {
  }

  lemma SteadyOfSnoc(had: seq<Matched>, m: Matched)
    ensures SteadyOf(had + [m]) == if m.Old? then SteadyOf(had) + 1 else if m.Unread? then SteadyOf(had) else 0
  {
    assert (had + [m])[..|had|] == had;
  }

  lemma SteadyGrows(had: seq<Matched>, m: Matched, confirm: nat)
    requires Unsteady(had, confirm)
    ensures var seen := had + [m];
            && SteadyOf(seen) == (if m.Old? then SteadyOf(had) + 1 else if m.Unread? then SteadyOf(had) else 0)
            && (if SteadyOf(seen) >= confirm then Steadies(seen, confirm) else Unsteady(seen, confirm))
  {
    SteadyOfSnoc(had, m);
    hide SteadyOf;
    var seen := had + [m];
    assert seen[..|had|] == had;
    assert forall n :: 0 <= n <= |had| ==> seen[..n] == had[..n];
    assert seen[..|had| + 1] == seen;
  }

  lemma FlipOfSnoc(had: seq<Matched>, m: Matched)
    ensures var f := FlipOf(had);
            FlipOf(had + [m]) == (match m
                                  case New => Flip(f.streak + 1, if f.first.None? then Some(|had|) else f.first)
                                  case Old => Flip(0, None)
                                  case _ => f)
  {
    assert (had + [m])[..|had|] == had;
  }

  lemma FlipGrows(had: seq<Matched>, m: Matched, confirm: nat)
    requires Undecided(had, confirm)
    ensures var seen, f := had + [m], FlipOf(had);
            && FlipOf(seen) == (match m
                                case New => Flip(f.streak + 1, if f.first.None? then Some(|had|) else f.first)
                                case Old => Flip(0, None)
                                case _ => f)
            && (if FlipOf(seen).streak >= confirm then Confirms(seen, confirm) else Undecided(seen, confirm))
  {
    var seen := had + [m];
    hide FlipOf;
    FlipOfSnoc(had, m);
    assert seen[..|had|] == had;
    assert forall n :: 0 <= n <= |had| ==> seen[..n] == had[..n];
    assert seen[..|had| + 1] == seen;
  }

  function OrigOf(box: Option<Box>): Option<real> {
    if box.Some? && box.value.standingBid.Some? then Some(Round3(box.value.standingBid.value)) else None
  }

  /** The plan for these phases, and the preflight lets it through. */
  predicate Accepts(box: Option<Box>, plan: seq<Phase>, deltaPct: real, names: seq<PhaseName>, maxPrice: real) {
    && Unknown !in names
    && Chained(plan, names, Round3(if OrigOf(box).Some? then OrigOf(box).value else 0.0), deltaPct)
    && Preflight(box, plan, maxPrice, OrigOf(box))
  }

  lemma {:induction false} PlanIsUnique(a: seq<Phase>, b: seq<Phase>, names: seq<PhaseName>, orig: real, deltaPct: real)
    requires Chained(a, names, orig, deltaPct) && Chained(b, names, orig, deltaPct)
    ensures a == b
  {
    hide PhaseTarget;
    for i := 0 to |a|
      invariant forall k :: 0 <= k < i ==> a[k] == b[k]
    {
      assert Before(a, i, orig) == Before(b, i, orig);
    }
  }

  /** A whole probe of one box. Nothing is PUT unless the preflight agrees; no price ever
      exceeds the cap; and if the probe says the bid is restored then it is. */
  method Probe(box: Option<Box>, market: Market, deltaPct: real, names: seq<PhaseName>, maxPrice: real,
               interval: real, maxWait: real, baselineWait: real)
    returns (verdict: Option<Restore>, outcomes: seq<Outcome>)
    requires market.puts == []
    requires box.Some? && box.value.standingBid.Some? ==> market.bid == box.value.standingBid.value
    modifies market
    ensures verdict.Some? <==> exists plan :: Accepts(box, plan, deltaPct, names, maxPrice)
    ensures verdict.None? ==> market.puts == [] && market.bid == old(market.bid)
    ensures verdict.Some? ==>
              && |outcomes| <= |names| && (names != [] ==> outcomes != []) && |market.puts| >= |outcomes| - 1
              && (|outcomes| < |names| ==> !outcomes[|outcomes| - 1].Flipped? && !outcomes[|outcomes| - 1].Censored?)
    ensures forall i :: 0 <= i < |market.puts| ==> market.puts[i].price <= maxPrice
    ensures Spaced(market.puts)
    ensures verdict == Some(Restored) ==>
              || market.bid == Round3(old(market.bid))
              || (market.bid == old(market.bid) && forall i :: 0 <= i < |market.puts| ==> !Applied(market.puts[i]))
  {
    hide Round3;
    var orig := if box.Some? && box.value.standingBid.Some? then Some(Round3(box.value.standingBid.value)) else None;
    assert orig == OrigOf(box);
    var plan := BuildPlan(if orig.Some? then orig.value else 0.0, deltaPct, names);
    if plan.None? || !Preflight(box, plan.value, maxPrice, orig) {
      if plan.Some? {
        forall other | Accepts(box, other, deltaPct, names, maxPrice) ensures false {
          PlanIsUnique(other, plan.value, names, Round3(if orig.Some? then orig.value else 0.0), deltaPct);
        }
      }
      return None, [];
    }
    assert Accepts(box, plan.value, deltaPct, names, maxPrice);
    var pace := if interval < INTERVAL_FLOOR_S then INTERVAL_FLOOR_S else interval;
    var probe := new EchoProbe(market, box.value.standingBid.value, maxPrice, pace, maxWait, baselineWait);
    outcomes := probe.RunPlan(plan.value);
    var restored := probe.RestoreBid();
    verdict := Some(restored);
  }

  /** Some PUT since `before` took effect. */
  predicate Touched(before: seq<Put>, puts: seq<Put>) {
    exists i :: |before| <= i < |puts| && Applied(puts[i])
  }

  lemma TouchedGrows(before: seq<Put>, had: seq<Put>, puts: seq<Put>)
    requires |before| <= |had| && had <= puts
    ensures Touched(before, puts) <==> Touched(before, had) || Touched(had, puts)
  {
    if i :| |before| <= i < |had| && Applied(had[i]) {
      assert puts[i] == had[i];
    }
    if i :| |before| <= i < |puts| && Applied(puts[i]) {
      assert i < |had| ==> puts[i] == had[i];
    }
  }
}
