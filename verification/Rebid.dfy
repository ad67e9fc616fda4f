/** What an escalating bid may cost: the job-aware defence ceiling, the shared
    re-bid ceiling, the notification-priced rescue quote and the re-bid ladder
    (tools/vast/bidpolicy.py). */
module Rebid {
  import opened Money
  import opened BidRails

  const REPLACE_CEILING_MULT := 2.0
  const REBID_CEILING_MULT := REPLACE_CEILING_MULT
  const REBID_STEP := 0.25
  const REBID_MAX_RUNGS := 3
  const REPLACE_MIN_RUNTIME_H := 0.25
  const SPOT_SETUP_H := 0.193
  const SPOT_PRIOR_LIFETIME_H := 0.643

  // ---- the job-aware defence ceiling -------------------------------------

  datatype Defend = Dear | Cheap

  /** What the job says about its work; an unrecognised hint reads as absent. */
  datatype Work = Work(defend: Option<Defend>, ckptIntervalH: real, priorRuntimeH: Option<real>)

  function ResolveDefend(w: Work): Defend {
    if w.defend.Some? then w.defend.value
    else if w.ckptIntervalH > 0.0 then Dear
    else Cheap
  }

  function LostWorkHours(w: Work): (h: real)
    ensures h >= 0.0
  {
    if ResolveDefend(w) == Cheap then 0.0
    else if w.ckptIntervalH > 0.0 then w.ckptIntervalH / 2.0
    else if w.priorRuntimeH.Some? then Max(0.0, w.priorRuntimeH.value)
    else 0.0
  }

  function HorizonH(remainingH: Option<real>): (r: real)
    ensures r > 0.0
  {
    if remainingH.Some? && remainingH.value > 0.0 then remainingH.value else SPOT_PRIOR_LIFETIME_H
  }

  function DefenseCeiling(pAlt: Option<real>, remainingH: Option<real>, setupH: real, w: Work): Option<real> {
    var overhead := setupH + LostWorkHours(w);
    if Known(pAlt).None? || overhead < 0.0 then None
    else Some(Round3(HoldValue(pAlt.value, overhead, HorizonH(remainingH))))
  }

  /** The price at which holding for `r` hours costs what replacing would. */
  function HoldValue(pAlt: real, overhead: real, r: real): real
    requires r > 0.0
  {
    pAlt * (1.0 + overhead / r)
  }

  function Cost(rate: real, hours: real): real { rate * hours }

  lemma HoldValueIsBreakEven(pAlt: real, overhead: real, r: real)
    requires r > 0.0
    ensures Cost(HoldValue(pAlt, overhead, r), r) == Cost(pAlt, r + overhead)
  {
    assert (1.0 + overhead / r) * r == r + (overhead / r) * r;
  }

  lemma CostMonotone(a: real, b: real, r: real)
    requires r > 0.0
    ensures a <= b <==> Cost(a, r) <= Cost(b, r)
  {
    if a < b { assert (b - a) * r > 0.0; }
    if b < a { assert (a - b) * r > 0.0; }
  }

  lemma RoundedLine(b: real, x: real)
    ensures OnGrid(b) && b <= x ==> b <= Round3(x)
    ensures b <= Round3(x) ==> b - 0.0005 <= x
  {
    hide Round3, OnGrid;
    Round3Near(x);
    if OnGrid(b) && b <= x {
      Round3Monotone(b, x);
      Round3Fixes(b);
    }
  }

  /** Holding at `bid` for the rest of the job costs no more than renting the
      alternative and redoing the overhead, exactly when the ceiling admits the
      bid; rounding moves the line by at most half a grid step. */
  lemma DefenseIsBreakEven(bid: real, pAlt: real, remainingH: Option<real>, setupH: real, w: Work)
    requires pAlt > 0.0 && setupH + LostWorkHours(w) >= 0.0
    ensures var r := HorizonH(remainingH);
            var replacing := Cost(pAlt, r + (setupH + LostWorkHours(w)));
            var c := DefenseCeiling(Some(pAlt), remainingH, setupH, w).value;
            && (OnGrid(bid) && Cost(bid, r) <= replacing ==> bid <= c)
            && (bid <= c ==> Cost(bid - 0.0005, r) <= replacing)
  {
    hide Round3, HoldValue, HorizonH, LostWorkHours, OnGrid, Cost;
    var r, overhead := HorizonH(remainingH), setupH + LostWorkHours(w);
    var x := HoldValue(pAlt, overhead, r);
    HoldValueIsBreakEven(pAlt, overhead, r);
    CostMonotone(bid, x, r);
    CostMonotone(bid - 0.0005, x, r);
    RoundedLine(bid, x);
  }

  /** The ceiling in figures: the break-even with the setup and the work lost as overhead
      over the hours left, 0.643 of them when unknown. Cheap work loses nothing; dear
      work half a checkpoint interval, or without checkpoints the whole run so far. Unless
      the job says, work that is checkpointed is dear and other work cheap. */
  lemma DefenseInFigures(pAlt: real, remainingH: Option<real>, setupH: real, w: Work)
    requires pAlt > 0.0 && setupH >= 0.0
    ensures var dear := if w.defend.Some? then w.defend.value == Dear else w.ckptIntervalH > 0.0;
            var lost := if !dear then 0.0
                        else if w.ckptIntervalH > 0.0 then w.ckptIntervalH / 2.0
                        else if w.priorRuntimeH.Some? && w.priorRuntimeH.value > 0.0 then w.priorRuntimeH.value
                        else 0.0;
            var hours := if remainingH.Some? && remainingH.value > 0.0 then remainingH.value else 0.643;
            DefenseCeiling(Some(pAlt), remainingH, setupH, w) == Some(Round3(HoldValue(pAlt, setupH + lost, hours)))
  {
    hide Round3;
    var dear := if w.defend.Some? then w.defend.value == Dear else w.ckptIntervalH > 0.0;
    var lost := if !dear then 0.0
                else if w.ckptIntervalH > 0.0 then w.ckptIntervalH / 2.0
                else if w.priorRuntimeH.Some? && w.priorRuntimeH.value > 0.0 then w.priorRuntimeH.value
                else 0.0;
    var hours := if remainingH.Some? && remainingH.value > 0.0 then remainingH.value else 0.643;
    assert LostWorkHours(w) == lost && HorizonH(remainingH) == hours;
    hide LostWorkHours, HorizonH, HoldValue;
  }

  lemma HoldValueAntitone(pAlt: real, o: real, o': real, r: real, r': real)
    requires pAlt > 0.0 && 0.0 <= o <= o' && 0.0 < r' <= r
    ensures HoldValue(pAlt, o, r) <= HoldValue(pAlt, o', r')
  {
    var q, q' := o / r, o' / r';
    assert q * r == o && q' * r' == o' && q' >= 0.0;
    assert q' * r' <= q' * r;
    CostMonotone(q, q', r);
    CostMonotone(1.0 + q, 1.0 + q', pAlt);
  }

  /** The ceiling rises as the job nears its end, and never falls when the work
      at stake is declared dear instead of cheap. */
  lemma DefenseShape(pAlt: real, near: real, far: real, setupH: real, w: Work)
    requires pAlt > 0.0 && setupH >= 0.0 && 0.0 < near <= far
    ensures DefenseCeiling(Some(pAlt), Some(far), setupH, w).value
            <= DefenseCeiling(Some(pAlt), Some(near), setupH, w).value
    ensures DefenseCeiling(Some(pAlt), Some(near), setupH, w.(defend := Some(Cheap))).value
            <= DefenseCeiling(Some(pAlt), Some(near), setupH, w.(defend := Some(Dear))).value
  {
    hide Round3, HoldValue;
    var o := setupH + LostWorkHours(w);
    var cheap := setupH + LostWorkHours(w.(defend := Some(Cheap)));
    var dear := setupH + LostWorkHours(w.(defend := Some(Dear)));
    HoldValueAntitone(pAlt, o, o, far, near);
    Round3Monotone(HoldValue(pAlt, o, far), HoldValue(pAlt, o, near));
    HoldValueAntitone(pAlt, cheap, dear, near, near);
    Round3Monotone(HoldValue(pAlt, cheap, near), HoldValue(pAlt, dear, near));
  }

  // ---- the ceiling every escalating rung is held to ----------------------

  function MinBound(a: Option<real>, b: Option<real>): Option<real> {
    if a.None? then b else Some(MinOpt(a.value, b))
  }

  function AnchorBound(anchor: Option<real>, mult: real): Option<real> {
    if Known(anchor).Some? then Some(Round3(mult * anchor.value)) else None
  }

  function RebidCeiling(anchor: Option<real>, maxBid: Option<real>, onDemand: Option<real>,
                        mult: real, extra: Option<real>): Option<real>
  {
    var bound := MinBound(MinBound(AnchorBound(anchor, mult), maxBid), extra);
    if bound.None? then None else MinBound(bound, EffectiveBidCeiling(Known(onDemand), None))
  }

  /** Every line that exists binds, and with neither an anchor nor a cap nor a
      caller's bound there is no ceiling, whatever on-demand says. */
  lemma RebidCeilingBinds(anchor: Option<real>, maxBid: Option<real>, onDemand: Option<real>,
                          mult: real, extra: Option<real>)
    ensures var c := RebidCeiling(anchor, maxBid, onDemand, mult, extra);
            && (c.None? <==> Known(anchor).None? && maxBid.None? && extra.None?)
            && (c.Some? ==>
                  && AtMost(c.value, AnchorBound(anchor, mult))
                  && AtMost(c.value, maxBid)
                  && AtMost(c.value, extra)
                  && AtMost(c.value, EffectiveBidCeiling(Known(onDemand), None))
                  && (Some(c.value) == AnchorBound(anchor, mult) || Some(c.value) == maxBid
                      || Some(c.value) == extra || Some(c.value) == EffectiveBidCeiling(Known(onDemand), None)))
  {
    hide Round3;
  }

  function BudgetLeft(budget: Option<real>, spend: real): Option<real> {
    if budget.None? then None else Some(Round4(budget.value - spend))
  }

  /** The remainder is positive and still buys the minimum runtime at `price`. */
  predicate Affords(budgetLeft: Option<real>, price: real, minRuntimeH: real) {
    budgetLeft.Some? ==> budgetLeft.value > 0.0 && budgetLeft.value >= minRuntimeH * price
  }

  // ---- the notification-priced rescue quote ------------------------------

  datatype Quote = Quote(price: Option<real>, floor: Option<real>, ceiling: Option<real>)

  datatype RescueState = RescueState(notifyMinBid: Option<real>, marketMinBid: Option<real>,
                                     anchor: Option<real>, maxBid: Option<real>, onDemand: Option<real>,
                                     rebidCeilingMult: Option<real>, defenseCap: Option<real>,
                                     budget: Option<real>, spend: real)

  function NotifyRescueFloor(notifyMinBid: Option<real>, marketMinBid: Option<real>): Option<real> {
    if Known(notifyMinBid).None? then None
    else
      var market := if Known(marketMinBid).Some? then marketMinBid.value else 0.0;
      Some(Max(market, notifyMinBid.value + BID_MIN_STEP))
  }

  function NotifyRescueBound(s: RescueState): Quote {
    var floor := NotifyRescueFloor(s.notifyMinBid, s.marketMinBid);
    if floor.None? || (Known(s.marketMinBid).Some? && floor.value <= s.marketMinBid.value) then
      Quote(None, None, None)
    else
      var mult := if s.rebidCeilingMult.Some? then s.rebidCeilingMult.value else REBID_CEILING_MULT;
      var ceiling := RebidCeiling(s.anchor, s.maxBid, s.onDemand, mult, s.defenseCap);
      if ceiling.None? then Quote(None, floor, None)
      else
        var price := Target(floor, ceiling, s.onDemand);
        if price.None? || !Affords(BudgetLeft(s.budget, s.spend), price.value, REPLACE_MIN_RUNTIME_H)
        then Quote(None, floor, ceiling)
        else Quote(price, floor, ceiling)
  }

  /** A notification may propose a price but never widen what the rails emit: the
      quote is held to the very ceiling the re-bid rungs answer to, stays below
      on-demand, beats the displacing price by a cent and leaves the box a
      quarter of an hour of budget. */
  lemma RescueQuoteIsBounded(s: RescueState)
    requires NotifyRescueBound(s).price.Some?
    ensures var p := NotifyRescueBound(s).price.value;
            var mult := if s.rebidCeilingMult.Some? then s.rebidCeilingMult.value else REBID_CEILING_MULT;
            var c := RebidCeiling(s.anchor, s.maxBid, s.onDemand, mult, s.defenseCap);
            && c.Some? && p <= c.value
            && (Known(s.onDemand).Some? ==> p < s.onDemand.value)
            && s.notifyMinBid.value + BID_MIN_STEP <= p
            && Affords(BudgetLeft(s.budget, s.spend), p, REPLACE_MIN_RUNTIME_H)
  {
    hide BidDecision, Round3, Round4, StepPrice;
    var q := NotifyRescueBound(s);
    EmittedBidIsSafe(q.floor.value, q.ceiling, s.onDemand);
  }

  /** A notification is quoted exactly when its price, a cent up, beats the market's floor,
      some ceiling exists, a bid can be placed over it under that ceiling, and the budget
      left is positive and sustains the bid for a quarter of an hour; it is quoted at that
      bid. A notification no higher than the market says nothing. */
  lemma QuoteExactly(s: RescueState)
    ensures var told := s.notifyMinBid.Some? && s.notifyMinBid.value > 0.0;
            var market := if s.marketMinBid.Some? && s.marketMinBid.value > 0.0 then s.marketMinBid else None;
            var beats := told && (market.None? || s.notifyMinBid.value + 0.01 > market.value);
            var ceiling := RebidCeiling(s.anchor, s.maxBid, s.onDemand,
                                        if s.rebidCeilingMult.Some? then s.rebidCeilingMult.value else 2.0, s.defenseCap);
            var bid := if beats && ceiling.Some? then Target(Some(s.notifyMinBid.value + 0.01), ceiling, s.onDemand) else None;
            var left := if s.budget.Some? then Some(Round4(s.budget.value - s.spend)) else None;
            && (NotifyRescueBound(s).floor.Some? <==> beats)
            && NotifyRescueBound(s).price ==
                 if bid.Some? && (left.Some? ==> left.value > 0.0 && left.value >= 0.25 * bid.value) then bid else None
  {
    hide BidDecision, RebidCeiling, Round4;
  }

  // ---- the re-bid ladder -------------------------------------------------

  datatype Cycle = Cycle(marketMinBid: Option<real>, onDemand: Option<real>, maxBid: Option<real>,
                         anchor: Option<real>, onDemandClaim: bool,
                         budget: Option<real>, spend: real,
                         step: real, maxRungs: int, ceilingMult: real, minRuntimeH: real,
                         pAlt: Option<real>, remainingH: Option<real>, setupH: real, work: Work)

  datatype Stop = Disabled | OnDemandClaim | NoStandingBid | RungsExhausted | NoCeiling
                | NoWinnableBid | NoHeadroom | NoBudget

  datatype Rung = Raise(price: real, ceiling: real) | Stop(why: Stop)

  function CycleDefense(c: Cycle): Option<real> { DefenseCeiling(c.pAlt, c.remainingH, c.setupH, c.work) }

  /** A readable replacement market makes the defence one shot. */
  function RungLimit(c: Cycle): int {
    if CycleDefense(c).Some? && c.maxRungs > 1 then 1 else c.maxRungs
  }

  function CycleCeiling(c: Cycle): Option<real> {
    RebidCeiling(c.anchor, c.maxBid, c.onDemand, c.ceilingMult, CycleDefense(c))
  }

  /** What the next rung wants before the ceiling: a full step, or whatever the
      current floor demands if that is more. */
  function Wanted(lastBid: real, step: real, target: Option<real>): real {
    var stepPrice := StepPrice(lastBid, step);
    if target.Some? then Max(stepPrice, target.value) else stepPrice
  }

  function StepPrice(lastBid: real, step: real): real { Round3(lastBid * (1.0 + step)) }

  function RebidLadder(c: Cycle, lastBid: Option<real>, rungsUsed: nat): Rung {
    if RungLimit(c) <= 0 then Stop(Disabled)
    else if c.onDemandClaim then Stop(OnDemandClaim)
    else if Known(lastBid).None? then Stop(NoStandingBid)
    else if rungsUsed >= RungLimit(c) then Stop(RungsExhausted)
    else
      var ceiling := CycleCeiling(c);
      if ceiling.None? then Stop(NoCeiling)
      else
        var target := Target(c.marketMinBid, ceiling, Known(c.onDemand));
        var next := Round3(Min(Wanted(lastBid.value, c.step, target), ceiling.value));
        if Known(c.marketMinBid).Some? && target.None? then Stop(NoWinnableBid)
        else if next - lastBid.value < BID_MIN_STEP then Stop(NoHeadroom)
        else if !Affords(BudgetLeft(c.budget, c.spend), next, c.minRuntimeH) then Stop(NoBudget)
        else Raise(next, ceiling.value)
  }

  /** What the rung wants against the ceiling it is held to. */
  function WantedOf(c: Cycle, lastBid: real): real
    requires CycleCeiling(c).Some?
  {
    Wanted(lastBid, c.step, Target(c.marketMinBid, CycleCeiling(c), Known(c.onDemand)))
  }

  /** The next rung, in full: a quarter, or the step given, over the bid, or what the floor
      asks for if that is more, under the ceiling, on the grid. It is offered exactly when
      the ladder is on, no renter displaced us, rungs are left, a bid stands, some ceiling
      exists, the floor read can be bid over, the rung is a cent up, and the budget bears it. */
  lemma RungExactly(c: Cycle, lastBid: Option<real>, rungsUsed: nat)
    ensures var oneShot := DefenseCeiling(c.pAlt, c.remainingH, c.setupH, c.work).Some?;
            var rungs := if oneShot && c.maxRungs > 1 then 1 else c.maxRungs;
            var ceiling := RebidCeiling(c.anchor, c.maxBid, c.onDemand, c.ceilingMult,
                                        DefenseCeiling(c.pAlt, c.remainingH, c.setupH, c.work));
            var target := if ceiling.Some?
                          then Target(c.marketMinBid, ceiling, if c.onDemand.Some? && c.onDemand.value > 0.0 then c.onDemand else None)
                          else None;
            var open := !c.onDemandClaim && rungsUsed < rungs && lastBid.Some? && lastBid.value > 0.0 && ceiling.Some?
                        && !(c.marketMinBid.Some? && c.marketMinBid.value > 0.0 && target.None?);
            var stepped := if lastBid.Some? then Round3(lastBid.value * (1.0 + c.step)) else 0.0;
            var wanted := if target.Some? then Max(stepped, target.value) else stepped;
            var price := if ceiling.Some? then Round3(Min(wanted, ceiling.value)) else 0.0;
            var left := if c.budget.Some? then Some(Round4(c.budget.value - c.spend)) else None;
            var raised := open && price >= lastBid.value + 0.01
                          && (left.Some? ==> left.value > 0.0 && left.value >= c.minRuntimeH * price);
            && (RebidLadder(c, lastBid, rungsUsed).Raise? <==> raised)
            && (raised ==> RebidLadder(c, lastBid, rungsUsed) == Raise(price, ceiling.value))
  {
    hide BidDecision, RebidCeiling, DefenseCeiling, Round3, Round4;
  }

  /** A rung rises by at least a cent, within its limit and its budget, and is at
      most the ceiling rounded to the grid. It passes the ceiling itself exactly when
      the ceiling is what stops it and rounds up. */
  lemma RungIsBounded(c: Cycle, lastBid: Option<real>, rungsUsed: nat)
    requires RebidLadder(c, lastBid, rungsUsed).Raise?
    ensures var r := RebidLadder(c, lastBid, rungsUsed);
            && lastBid.value + BID_MIN_STEP <= r.price <= Round3(r.ceiling)
            && Some(r.ceiling) == CycleCeiling(c)
            && (r.price > r.ceiling <==> WantedOf(c, lastBid.value) >= r.ceiling && Round3(r.ceiling) > r.ceiling)
            && rungsUsed < RungLimit(c)
            && Affords(BudgetLeft(c.budget, c.spend), r.price, c.minRuntimeH)
  {
    hide BidDecision, Round3, Round4, DefenseCeiling, StepPrice, OnGrid;
    var ceiling, wanted := CycleCeiling(c).value, WantedOf(c, lastBid.value);
    Round3Monotone(Min(wanted, ceiling), ceiling);
    if wanted < ceiling {
      WantedOnGrid(c, lastBid.value);
      Round3Fixes(wanted);
    }
  }

  /** Short of the ceiling a rung is a grid price and needs no rounding. */
  lemma WantedOnGrid(c: Cycle, lastBid: real)
    requires CycleCeiling(c).Some? && WantedOf(c, lastBid) < CycleCeiling(c).value
    ensures OnGrid(WantedOf(c, lastBid))
  {
    hide BidDecision, Round3, Round4, DefenseCeiling, StepPrice, OnGrid;
    var ceiling := CycleCeiling(c).value;
    var od := Known(c.onDemand);
    var target := Target(c.marketMinBid, Some(ceiling), od);
    NoMarketNoPrice(Some(ceiling), od);
    StepPriceOnGrid(lastBid, c.step);
    if target.Some? {
      RailsStayOnGrid(c.marketMinBid.value, Some(ceiling), od);
      MinGrid(StepPrice(lastBid, c.step), target.value);
    }
  }

  /** No ceiling, on the grid or off it, lets a rung reach a known on-demand price:
      the line under on-demand is itself a grid price. */
  lemma RungBelowOnDemand(c: Cycle, lastBid: Option<real>, rungsUsed: nat)
    requires RebidLadder(c, lastBid, rungsUsed).Raise? && Known(c.onDemand).Some?
    ensures RebidLadder(c, lastBid, rungsUsed).price < c.onDemand.value
  {
    hide Round3, Round4, DefenseCeiling, StepPrice, OnGrid, BidDecision;
    var ceiling := CycleCeiling(c).value;
    var od := c.onDemand.value;
    var line := EffectiveBidCeiling(Some(od), None).value;
    RungIsBounded(c, lastBid, rungsUsed);
    RebidCeilingBinds(c.anchor, c.maxBid, c.onDemand, c.ceilingMult, CycleDefense(c));
    CeilingBelowOnDemand(od, None);
    Round3OnGrid(BID_CEILING_ONDEMAND_FRAC * od);
    Round3OnGrid(od - BID_ONDEMAND_EPS);
    MinGrid(Round3(BID_CEILING_ONDEMAND_FRAC * od), Round3(od - BID_ONDEMAND_EPS));
    Round3Monotone(ceiling, line);
    Round3Fixes(line);
  }

  /** A rung fails to clear the floor it was priced off exactly when the ceiling is
      what stops it and rounds to below that floor. */
  lemma RungClearsFloorExactly(c: Cycle, lastBid: Option<real>, rungsUsed: nat)
    requires RebidLadder(c, lastBid, rungsUsed).Raise? && Known(c.marketMinBid).Some?
    ensures var r := RebidLadder(c, lastBid, rungsUsed);
            r.price < c.marketMinBid.value
            <==> WantedOf(c, lastBid.value) >= r.ceiling && Round3(r.ceiling) < c.marketMinBid.value
  {
    hide BidDecision, Round3, Round4, OnGrid, DefenseCeiling, StepPrice;
    var ceiling, wanted := CycleCeiling(c).value, WantedOf(c, lastBid.value);
    EmittedBidIsSafe(c.marketMinBid.value, Some(ceiling), Known(c.onDemand));
    if wanted < ceiling {
      WantedOnGrid(c, lastBid.value);
      Round3Fixes(wanted);
    }
  }

  /** So on a grid ceiling a rung keeps every line at once. */
  lemma RungOnGridCeiling(c: Cycle, lastBid: Option<real>, rungsUsed: nat)
    requires RebidLadder(c, lastBid, rungsUsed).Raise?
    requires OnGrid(CycleCeiling(c).value)
    ensures var p := RebidLadder(c, lastBid, rungsUsed).price;
            && p <= CycleCeiling(c).value
            && (Known(c.onDemand).Some? ==> p < c.onDemand.value)
            && (Known(c.marketMinBid).Some? ==> c.marketMinBid.value <= p)
  {
    hide BidDecision, Round3, Round4, OnGrid, DefenseCeiling, StepPrice;
    RungIsBounded(c, lastBid, rungsUsed);
    Round3Fixes(CycleCeiling(c).value);
    if Known(c.onDemand).Some? {
      RungBelowOnDemand(c, lastBid, rungsUsed);
    }
    if Known(c.marketMinBid).Some? {
      RungClearsFloorExactly(c, lastBid, rungsUsed);
      EmittedBidIsSafe(c.marketMinBid.value, CycleCeiling(c), Known(c.onDemand));
    }
  }

  lemma MinGrid(a: real, b: real)
    requires OnGrid(a) && OnGrid(b)
    ensures OnGrid(Min(a, b)) && OnGrid(Max(a, b))
  {
    hide OnGrid;
  }

  lemma StepPriceOnGrid(lastBid: real, step: real)
    ensures OnGrid(StepPrice(lastBid, step))
  {
    hide Round3, OnGrid;
    Round3OnGrid(lastBid * (1.0 + step));
  }

  function PlainCycle(maxBid: real): Cycle {
    Cycle(None, None, Some(maxBid), None, false, None, 0.0, REBID_STEP, REBID_MAX_RUNGS, REBID_CEILING_MULT,
          REPLACE_MIN_RUNTIME_H, None, None, SPOT_SETUP_H, Work(None, 0.0, None))
  }

  /** Rounding after the clamp does let a rung pass an off-grid cap. */
  lemma OffGridCapIsExceeded()
    ensures RebidLadder(PlainCycle(0.4996), Some(0.45), 0) == Raise(0.5, 0.4996)
  {
    assert RoundInt(562.5) == 562;
    assert RoundInt(499.6) == 500;
  }

  // ---- a whole eviction cycle --------------------------------------------

  /** The prices an eviction cycle pays when every rung's PUT lands: each rung
      starts from the bid the last one left. */
  function CyclePrices(cs: seq<Cycle>, bid: real, used: nat): seq<real> {
    if cs == [] then []
    else
      match RebidLadder(cs[0], Some(bid), used)
      case Raise(p, _) => [p] + CyclePrices(cs[1..], p, used + 1)
      case Stop(_) => CyclePrices(cs[1..], bid, used)
  }

  /** Each price is at least a material step above the one before it. */
  predicate Climbs(bid: real, ps: seq<real>)
    decreases |ps|
  {
    ps == [] || (bid + BID_MIN_STEP <= ps[0] && Climbs(ps[0], ps[1..]))
  }

  /** However long the cycle and whatever the market does, the rungs number at
      most the limit in force (three, or one once a replacement price is
      readable throughout) and each one rises by at least a cent. */
  lemma {:induction false} CycleIsBounded(cs: seq<Cycle>, bid: real, used: nat, limit: nat)
    requires forall c :: c in cs ==> RungLimit(c) <= limit
    ensures var ps := CyclePrices(cs, bid, used);
            && used + |ps| <= (if used > limit then used else limit)
            && Climbs(bid, ps)
  {
    hide RebidLadder;
    if cs != [] {
      assert cs[0] in cs;
      var r := RebidLadder(cs[0], Some(bid), used);
      if r.Raise? {
        RungIsBounded(cs[0], Some(bid), used);
        CycleIsBounded(cs[1..], r.price, used + 1, limit);
        var rest := CyclePrices(cs[1..], r.price, used + 1);
        assert ([r.price] + rest)[1..] == rest;
      } else {
        CycleIsBounded(cs[1..], bid, used, limit);
      }
    }
  }

  lemma ReadableAlternativeIsOneShot(c: Cycle)
    requires Known(c.pAlt).Some? && c.setupH >= 0.0
    ensures RungLimit(c) <= 1
    ensures RungLimit(c.(pAlt := None)) == c.maxRungs
  {
  }

  /** A cycle that can read a replacement price throughout defends at most once. */
  lemma InformedCycleIsOneShot(cs: seq<Cycle>, bid: real)
    requires forall c :: c in cs ==> Known(c.pAlt).Some? && c.setupH >= 0.0
    ensures |CyclePrices(cs, bid, 0)| <= 1
  {
    forall c | c in cs ensures RungLimit(c) <= 1 {
      ReadableAlternativeIsOneShot(c);
    }
    CycleIsBounded(cs, bid, 0, 1);
  }

  /** Reading a replacement price can only cheapen a rung: with it the ceiling is
      no higher, and wherever both ladders raise, the informed one raises less. */
  lemma AlternativeNeverRaisesTheRung(c: Cycle, lastBid: Option<real>, rungsUsed: nat)
    requires Known(c.anchor).Some? || c.maxBid.Some?
    requires RebidLadder(c, lastBid, rungsUsed).Raise?
    ensures var blind := RebidLadder(c.(pAlt := None), lastBid, rungsUsed);
            && (blind.Raise? ==> RebidLadder(c, lastBid, rungsUsed).price <= blind.price)
            && (blind.Stop? ==> blind.why == NoBudget)
  {
    hide BidDecision, Round3, Round4, StepPrice;
    var c' := c.(pAlt := None);
    var od := Known(c.onDemand);
    var tight, loose := CycleCeiling(c).value, CycleCeiling(c').value;
    assert tight <= loose;
    var t := Target(c.marketMinBid, Some(tight), od);
    var t' := Target(c.marketMinBid, Some(loose), od);
    NoMarketNoPrice(Some(tight), od);
    if t.Some? {
      MonotoneInMaxBid(c.marketMinBid.value, Some(tight), Some(loose), od);
    }
    var w, w' := Wanted(lastBid.value, c.step, t), Wanted(lastBid.value, c.step, t');
    assert w <= w';
    Round3Monotone(Min(w, tight), Min(w', loose));
  }
}
