/** Whether, where and at what price an evicted box is replaced
    (tools/vast/bidpolicy.py). */
module Replacement {
  import opened Money
  import opened BidRails
  import opened Rebid

  const REPLACE_ESCALATION_CAP_MULT := 4.0
  const REPLACE_MIN_CUSHION := BID_MIN_CUSHION_MULT
  const MAX_REPLACEMENTS := 3
  const MAX_SPOT_FASTDEATHS := 2

  // ---- the re-derived ceiling --------------------------------------------

  datatype Evidence = Evidence(marketFloor: Option<real>, pAlt: Option<real>, onDemand: Option<real>,
                               budgetLeft: Option<real>, horizonH: Option<real>)

  function BaseCeiling(anchor: real): real { Round3(REPLACE_CEILING_MULT * anchor) }

  function EscalationCap(anchor: real): real { Round3(REPLACE_ESCALATION_CAP_MULT * anchor) }

  /** Live evidence counts only when it lies above the base. */
  function Over(base: real, read: Option<real>): Option<real> {
    if Known(read).Some? && read.value > base then read else None
  }

  function BudgetBound(ev: Evidence): Option<real> {
    var horizon := if Known(ev.horizonH).Some? then ev.horizonH.value else REPLACE_MIN_RUNTIME_H;
    if ev.budgetLeft.None? then None else Some(Round3(ev.budgetLeft.value / horizon))
  }

  function ReplacementCeiling(anchor: Option<real>, ev: Evidence): Option<real> {
    if Known(anchor).None? then None
    else
      var base := BaseCeiling(anchor.value);
      var marketRef := MinBound(Over(base, ev.marketFloor), Over(base, ev.pAlt));
      if marketRef.None? then Some(base)
      else
        var price := MinOpt(MinOpt(Min(Cushion(marketRef.value), EscalationCap(anchor.value)),
                                   EffectiveBidCeiling(Known(ev.onDemand), None)),
                            BudgetBound(ev));
        Some(if price <= base then base else price)
  }

  /** Re-derivation never lowers the authorised base and never leaves four times the
      anchor; an escalated value also obeys the cushion, on-demand and budget lines. */
  lemma CeilingStaysInItsBand(anchor: real, ev: Evidence)
    requires anchor > 0.0
    ensures var c := ReplacementCeiling(Some(anchor), ev);
            && c.Some?
            && BaseCeiling(anchor) <= c.value <= Max(BaseCeiling(anchor), EscalationCap(anchor))
            && (c.value > BaseCeiling(anchor) ==>
                  && AtMost(c.value, EffectiveBidCeiling(Known(ev.onDemand), None))
                  && AtMost(c.value, BudgetBound(ev))
                  && EvidencePays(anchor, ev, c.value))
  {
    hide Round3;
    var read := MinBound(Over(BaseCeiling(anchor), ev.marketFloor), Over(BaseCeiling(anchor), ev.pAlt));
  }

  /** It leaves the base exactly when some live read lies above it and every line,
      that read's cushion included, does too; and it then stands on the lowest line. */
  lemma EscalationIsExact(anchor: real, ev: Evidence)
    requires anchor > 0.0
    ensures var c, base := ReplacementCeiling(Some(anchor), ev).value, BaseCeiling(anchor);
            var read := MinBound(Over(base, ev.marketFloor), Over(base, ev.pAlt));
            var lines := Lines(anchor, ev);
            && (c > base <==> read.Some? && base < Cushion(read.value) && forall x :: x in lines ==> base < x)
            && (c > base ==> c == Cushion(read.value) || c in lines)
  {
    hide Cushion, EscalationCap, BaseCeiling, EffectiveBidCeiling, BudgetBound;
    var od, budget, lines := EffectiveBidCeiling(Known(ev.onDemand), None), BudgetBound(ev), Lines(anchor, ev);
    assert EscalationCap(anchor) in lines;
    assert od.Some? ==> od.value in lines;
    assert budget.Some? ==> budget.value in lines;
    assert forall x :: x in lines ==> x == EscalationCap(anchor) || Some(x) == od || Some(x) == budget;
  }

  /** The bounds no live evidence lifts. */
  function Lines(anchor: real, ev: Evidence): set<real> {
    var od, budget := EffectiveBidCeiling(Known(ev.onDemand), None), BudgetBound(ev);
    {EscalationCap(anchor)} + (if od.Some? then {od.value} else {}) + (if budget.Some? then {budget.value} else {})
  }

  /** The ceiling in figures: twice the anchor, or the least of a tenth over the nearest
      live read above that, four times the anchor, the on-demand line and what the budget
      sustains for the horizon (a quarter of an hour without one), where that is more. */
  lemma CeilingInFigures(anchor: real, ev: Evidence)
    requires anchor > 0.0
    ensures var base := Round3(2.0 * anchor);
            var floor := if ev.marketFloor.Some? && ev.marketFloor.value > 0.0 && ev.marketFloor.value > base
                         then ev.marketFloor else None;
            var alt := if ev.pAlt.Some? && ev.pAlt.value > 0.0 && ev.pAlt.value > base then ev.pAlt else None;
            var read := if floor.Some? && alt.Some? then Some(Min(floor.value, alt.value)) else if floor.Some? then floor else alt;
            var horizon := if ev.horizonH.Some? && ev.horizonH.value > 0.0 then ev.horizonH.value else 0.25;
            var lifted := if read.None? then base
                          else
                            var l1 := Min(Round3(1.1 * read.value), Round3(4.0 * anchor));
                            var l2 := if ev.onDemand.Some? && ev.onDemand.value > 0.0
                                      then Min(l1, Min(Round3(0.75 * ev.onDemand.value), Round3(ev.onDemand.value - 0.001)))
                                      else l1;
                            if ev.budgetLeft.Some? then Min(l2, Round3(ev.budgetLeft.value / horizon)) else l2;
            ReplacementCeiling(Some(anchor), ev) == Some(Max(base, lifted))
  {
    hide Round3;
    BidRails.CeilingInFigures(Known(ev.onDemand), None);
  }

  /** Some live read above the base is worth `price` once cushioned. */
  predicate EvidencePays(anchor: real, ev: Evidence, price: real) {
    var base := BaseCeiling(anchor);
    || (Over(base, ev.marketFloor).Some? && price <= Cushion(ev.marketFloor.value))
    || (Over(base, ev.pAlt).Some? && price <= Cushion(ev.pAlt.value))
  }

  // ---- spot against on-demand per useful hour ----------------------------

  /** Is spot cheaper per useful hour? `None` when an input is unusable. */
  function SpotBreakeven(spot: real, onDemand: real, overheadH: real, lifetimeH: real): Option<bool> {
    if spot <= 0.0 || onDemand <= 0.0 || lifetimeH <= 0.0 || overheadH < 0.0 then None
    else if lifetimeH <= overheadH then Some(false)
    else Some(spot * lifetimeH / (lifetimeH - overheadH) < onDemand)
  }

  lemma DivideBy(x: real, y: real, d: real)
    requires d > 0.0
    ensures x / d < y <==> x < y * d
  {
    var q := x / d;
    assert q * d == x;
    if q < y { assert (y - q) * d > 0.0; }
    if y <= q { assert (q - y) * d >= 0.0; }
  }

  /** The threshold rule: spot wins exactly when the price ratio is under the
      useful fraction of a box's life. */
  lemma BreakevenIsThreshold(spot: real, onDemand: real, overheadH: real, lifetimeH: real)
    requires spot > 0.0 && onDemand > 0.0 && lifetimeH > 0.0 && overheadH >= 0.0
    ensures SpotBreakeven(spot, onDemand, overheadH, lifetimeH)
            == Some(spot / onDemand < 1.0 - overheadH / lifetimeH)
  {
    var useful := lifetimeH - overheadH;
    var fraction := 1.0 - overheadH / lifetimeH;
    assert fraction * lifetimeH == useful by {
      assert (overheadH / lifetimeH) * lifetimeH == overheadH;
    }
    DivideBy(spot, fraction, onDemand);
    DivideBy(spot * lifetimeH, fraction * onDemand * lifetimeH, 1.0);
    ScaleLess(spot, fraction * onDemand, lifetimeH);
    assert fraction * onDemand * lifetimeH == useful * onDemand;
    if useful > 0.0 {
      DivideBy(spot * lifetimeH, onDemand, useful);
    } else {
      assert useful * onDemand <= 0.0 && spot * lifetimeH > 0.0;
    }
  }

  lemma ScaleLess(a: real, b: real, d: real)
    requires d > 0.0
    ensures a < b <==> a * d < b * d
  {
    if a < b { assert (b - a) * d > 0.0; }
    if b <= a { assert (a - b) * d >= 0.0; }
  }

  /** A longer life never turns a winning spot box into a losing one. */
  lemma BreakevenMonotone(spot: real, onDemand: real, overheadH: real, short: real, long: real)
    requires 0.0 < short <= long
    requires SpotBreakeven(spot, onDemand, overheadH, short) == Some(true)
    ensures SpotBreakeven(spot, onDemand, overheadH, long) == Some(true)
  {
    BreakevenIsThreshold(spot, onDemand, overheadH, short);
    BreakevenIsThreshold(spot, onDemand, overheadH, long);
    assert overheadH / long <= overheadH / short by { SpreadThinner(overheadH, short, long); }
  }

  lemma SpreadThinner(o: real, short: real, long: real)
    requires 0.0 <= o && 0.0 < short <= long
    ensures o / long <= o / short
  {
    var q, q' := o / short, o / long;
    assert q * short == o && q' * long == o && q' >= 0.0;
    assert q' * short <= q' * long;
    ScaleLess(q, q', short);
  }

  // ---- the rung choice ---------------------------------------------------

  datatype Rental = Bid | OnDemand

  datatype Gate = NoBudgetCap | ReplacementCap | BudgetExhausted | NoAnchor

  datatype Decision =
    | Refused(gate: Gate)
    | Rent(rental: Rental, price: real)
    | NothingAffordable

  datatype Request = Request(onDemandClaim: bool, replacementsUsed: nat,
                             budget: Option<real>, spend: real, anchor: Option<real>,
                             offerMinBid: Option<real>, offerOnDemand: Option<real>, spotOnDemand: Option<real>,
                             fastDeaths: nat, observedLifetimeH: Option<real>, setupH: Option<real>,
                             ckptIntervalH: real, priorLifetimeH: Option<real>, ceiling: Option<real>)

  function GateOf(r: Request): Option<Gate> {
    if r.budget.None? then Some(NoBudgetCap)
    else if r.replacementsUsed >= MAX_REPLACEMENTS then Some(ReplacementCap)
    else if BudgetLeft(r.budget, r.spend).value <= 0.0 then Some(BudgetExhausted)
    else if Known(r.anchor).None? then Some(NoAnchor)
    else None
  }

  function PriceCeiling(r: Request): real
    requires Known(r.anchor).Some?
  {
    if r.ceiling.Some? then r.ceiling.value else BaseCeiling(r.anchor.value)
  }

  /** The bid is clamped against the candidate's own machine when that was read. */
  function ClampReference(r: Request): Option<real> {
    if Known(r.spotOnDemand).Some? then r.spotOnDemand else Known(r.offerOnDemand)
  }

  function SpotPrice(r: Request): Option<real>
    requires Known(r.anchor).Some?
  {
    Target(r.offerMinBid, Some(PriceCeiling(r)), ClampReference(r))
  }

  predicate Viable(price: Option<real>, r: Request)
    requires GateOf(r).None?
  {
    && price.Some?
    && price.value <= PriceCeiling(r)
    && BudgetLeft(r.budget, r.spend).value >= REPLACE_MIN_RUNTIME_H * price.value
  }

  predicate Inverted(r: Request)
    requires GateOf(r).None?
  {
    SpotPrice(r).Some? && Known(r.offerOnDemand).Some? && SpotPrice(r).value >= r.offerOnDemand.value
  }

  predicate Thin(r: Request)
    requires GateOf(r).None?
  {
    && ClampReference(r).Some? && SpotPrice(r).Some? && Known(r.offerMinBid).Some?
    && SpotPrice(r).value < Round3(REPLACE_MIN_CUSHION * r.offerMinBid.value)
  }

  /** This lane's own dead replacements when it has any, the assumed life otherwise. */
  function Lifetime(r: Request): Option<real> {
    if r.observedLifetimeH.Some? then r.observedLifetimeH else Known(r.priorLifetimeH)
  }

  predicate Livelock(r: Request)
    requires GateOf(r).None?
  {
    && Known(r.offerOnDemand).Some? && SpotPrice(r).Some? && Lifetime(r).Some? && r.setupH.Some?
    && SpotBreakeven(SpotPrice(r).value, r.offerOnDemand.value,
                     r.setupH.value + r.ckptIntervalH / 2.0, Lifetime(r).value) == Some(false)
  }

  predicate PreferOnDemand(r: Request)
    requires GateOf(r).None?
  {
    r.onDemandClaim || r.fastDeaths >= MAX_SPOT_FASTDEATHS || Inverted(r) || Thin(r) || Livelock(r)
  }

  function ReplacementDecision(r: Request): Decision {
    if GateOf(r).Some? then Refused(GateOf(r).value)
    else
      var spotOk := Viable(SpotPrice(r), r);
      var odOk := Viable(Known(r.offerOnDemand), r);
      if PreferOnDemand(r) then
        if odOk then Rent(OnDemand, r.offerOnDemand.value)
        else if spotOk && !Inverted(r) then Rent(Bid, SpotPrice(r).value)
        else NothingAffordable
      else if spotOk then Rent(Bid, SpotPrice(r).value)
      else if odOk then Rent(OnDemand, r.offerOnDemand.value)
      else NothingAffordable
  }

  /** An inverted spread cannot cost a rental: a viable spot bid at or over the
      on-demand price makes the on-demand rung viable too. */
  lemma InvertedSpotImpliesOnDemand(r: Request)
    requires GateOf(r).None? && Inverted(r) && Viable(SpotPrice(r), r)
    ensures Viable(Known(r.offerOnDemand), r)
  {
    hide Target, Round3, Round4;
  }

  /** Complete as well as sound: past the gates a box is rented exactly when some
      rung is viable, and on which market is determined; nothing rented passes
      the ceiling or leaves less than a quarter of an hour of budget. */
  lemma ReplacementIsComplete(r: Request)
    requires GateOf(r).None?
    ensures var d := ReplacementDecision(r);
            var spotOk := Viable(SpotPrice(r), r);
            var odOk := Viable(Known(r.offerOnDemand), r);
            && (d.Rent? <==> spotOk || odOk)
            && (d.Rent? ==>
                  && (d.rental == OnDemand <==> odOk && (PreferOnDemand(r) || !spotOk))
                  && d.price <= PriceCeiling(r)
                  && BudgetLeft(r.budget, r.spend).value >= REPLACE_MIN_RUNTIME_H * d.price)
            && !d.Refused?
  {
    hide Target, Round3, Round4, Thin, Livelock;
    if Inverted(r) && Viable(SpotPrice(r), r) {
      InvertedSpotImpliesOnDemand(r);
    }
  }

  /** What is left of the budget, to a hundredth of a cent. */
  lemma BudgetLeftExactly(budget: real, spend: real)
    ensures BudgetLeft(Some(budget), spend) == Some(RoundInt((budget - spend) * 10000.0) as real / 10000.0)
  {
  }

  /** No rental is even considered without a budget, after three replacements, with nothing
      left to spend or without a launch price; the first of these is what is said. */
  lemma GateExactly(r: Request)
    ensures GateOf(r) ==
            if r.budget.None? then Some(NoBudgetCap)
            else if r.replacementsUsed >= 3 then Some(ReplacementCap)
            else if Round4(r.budget.value - r.spend) <= 0.0 then Some(BudgetExhausted)
            else if r.anchor.None? || r.anchor.value <= 0.0 then Some(NoAnchor)
            else None
  {
  }

  /** An on-demand box is rented, where it fits the ceiling and a quarter of an hour of the
      budget, exactly when a renter displaced us, two spot boxes died young, the spot bid
      is no cheaper, is squeezed under a tenth over its floor, or loses per useful hour of
      a box's life; or when spot does not fit. Otherwise, where it fits, the spot box is. */
  lemma RungChoiceExactly(r: Request)
    requires GateOf(r).None?
    ensures var left := Round4(r.budget.value - r.spend);
            var ceiling := if r.ceiling.Some? then r.ceiling.value else Round3(2.0 * r.anchor.value);
            var od := if r.offerOnDemand.Some? && r.offerOnDemand.value > 0.0 then r.offerOnDemand else None;
            var reference := if r.spotOnDemand.Some? && r.spotOnDemand.value > 0.0 then r.spotOnDemand else od;
            var bid := Target(r.offerMinBid, Some(ceiling), reference);
            var bidFits := bid.Some? && bid.value <= ceiling && left >= 0.25 * bid.value;
            var odFits := od.Some? && od.value <= ceiling && left >= 0.25 * od.value;
            var inverted := bid.Some? && od.Some? && bid.value >= od.value;
            var thin := bid.Some? && reference.Some? && r.offerMinBid.Some? && r.offerMinBid.value > 0.0
                        && bid.value < Round3(1.1 * r.offerMinBid.value);
            var life := if r.observedLifetimeH.Some? then r.observedLifetimeH
                        else if r.priorLifetimeH.Some? && r.priorLifetimeH.value > 0.0 then r.priorLifetimeH else None;
            var losing := bid.Some? && od.Some? && life.Some? && r.setupH.Some?
                          && SpotBreakeven(bid.value, od.value, r.setupH.value + r.ckptIntervalH / 2.0, life.value)
                             == Some(false);
            var shun := r.onDemandClaim || r.fastDeaths >= 2 || inverted || thin || losing;
            ReplacementDecision(r) ==
              if odFits && (shun || !bidFits) then Rent(OnDemand, od.value)
              else if bidFits then Rent(Bid, bid.value)
              else NothingAffordable
  {
    hide BidDecision, Round3, Round4, SpotBreakeven;
    if Inverted(r) && Viable(SpotPrice(r), r) {
      InvertedSpotImpliesOnDemand(r);
    }
  }

  /** A rented bid is a bid the rails would place: at or over its floor, at most
      the ceiling and under its own machine's on-demand price. */
  lemma RentedBidObeysTheRails(r: Request)
    requires ReplacementDecision(r).Rent? && ReplacementDecision(r).rental == Bid
    ensures var p := ReplacementDecision(r).price;
            && r.offerMinBid.Some? && r.offerMinBid.value <= p <= PriceCeiling(r)
            && (ClampReference(r).Some? ==> p < ClampReference(r).value)
  {
    hide BidDecision, Round3, Round4, Thin, Livelock;
    if r.offerMinBid.Some? {
      EmittedBidIsSafe(r.offerMinBid.value, Some(PriceCeiling(r)), ClampReference(r));
    } else {
      NoMarketNoPrice(Some(PriceCeiling(r)), ClampReference(r));
    }
  }

  /** An on-demand price nobody read clamps nothing, is never inverted or thin,
      and is never rented. */
  lemma UnknownOnDemandIsInert(r: Request)
    requires GateOf(r).None? && Known(r.offerOnDemand).None?
    ensures !Inverted(r) && !Livelock(r)
    ensures Known(r.spotOnDemand).None? ==> !Thin(r) && ClampReference(r).None?
    ensures ReplacementDecision(r).Rent? ==> ReplacementDecision(r).rental == Bid
  {
    hide Target, Round3, Round4;
  }

  // ---- a watch and its swaps --------------------------------------------------

  /** One eviction's reads: the candidates, and the live evidence for the ceiling. */
  datatype Market = Market(onDemandClaim: bool, offerMinBid: Option<real>, offerOnDemand: Option<real>,
                           spotOnDemand: Option<real>, fastDeaths: nat, observedLifetimeH: Option<real>,
                           setupH: Option<real>, ckptIntervalH: real, priorLifetimeH: Option<real>,
                           marketFloor: Option<real>, pAlt: Option<real>, heldOnDemand: Option<real>,
                           remainingH: Option<real>)

  /** What survives a swap: the launch price, the spend and the count. */
  datatype Ledger = Ledger(anchor: Option<real>, spend: real, replacements: nat)

  function Observed(l: Ledger, live: bool, dph: Option<real>, hours: real): Ledger {
    Ledger(if Known(dph).Some? && l.anchor.None? then dph else l.anchor,
           if live && Known(dph).Some? then l.spend + dph.value * hours else l.spend,
           l.replacements)
  }

  function RequestOf(l: Ledger, budget: Option<real>, m: Market): Request {
    var ev := Evidence(m.marketFloor, m.pAlt, m.heldOnDemand, BudgetLeft(budget, l.spend), m.remainingH);
    Request(m.onDemandClaim, l.replacements, budget, l.spend, l.anchor,
            m.offerMinBid, m.offerOnDemand, m.spotOnDemand, m.fastDeaths, m.observedLifetimeH,
            m.setupH, m.ckptIntervalH, m.priorLifetimeH, ReplacementCeiling(l.anchor, ev))
  }

  /** The ladder rents, the launch lands, and the new box takes the watch over: the
      count moves, the anchor does not. */
  function Swapped(l: Ledger, budget: Option<real>, m: Market, lands: bool): Ledger {
    if ReplacementDecision(RequestOf(l, budget, m)).Rent? && lands then l.(replacements := l.replacements + 1) else l
  }

  class JobWatch {
    const budget: Option<real>
    var anchor: Option<real>
    var spend: real
    var replacements: nat

    ghost function Value(): Ledger reads this { Ledger(anchor, spend, replacements) }

    constructor (budget: Option<real>)
      ensures this.budget == budget && Value() == Ledger(None, 0.0, 0)
    {
      this.budget, anchor, spend, replacements := budget, None, 0.0, 0;
    }

    method Observe(live: bool, dph: Option<real>, hours: real)
      modifies this
      ensures Value() == Observed(old(Value()), live, dph, hours)
    {
      if live && Known(dph).Some? {
        spend := spend + dph.value * hours;
      }
      if Known(dph).Some? && anchor.None? {
        anchor := dph;
      }
    }

    method Replace(m: Market, lands: bool) returns (decision: Decision)
      modifies this
      ensures decision == ReplacementDecision(RequestOf(old(Value()), budget, m))
      ensures Value() == Swapped(old(Value()), budget, m, lands)
    {
      hide ReplacementDecision, ReplacementCeiling, BudgetLeft;
      var left := BudgetLeft(budget, spend);
      var ceiling := ReplacementCeiling(anchor, Evidence(m.marketFloor, m.pAlt, m.heldOnDemand, left, m.remainingH));
      decision := ReplacementDecision(
        Request(m.onDemandClaim, replacements, budget, spend, anchor, m.offerMinBid, m.offerOnDemand,
                m.spotOnDemand, m.fastDeaths, m.observedLifetimeH, m.setupH, m.ckptIntervalH, m.priorLifetimeH,
                ceiling));
      if decision.Rent? && lands {
        replacements := replacements + 1;
      }
    }
  }

  datatype WatchEvent =
    | Observation(live: bool, dph: Option<real>, hours: real)
    | Eviction(m: Market, lands: bool)

  function Next(l: Ledger, budget: Option<real>, e: WatchEvent): Ledger {
    match e
    case Observation(live, dph, hours) => Observed(l, live, dph, hours)
    case Eviction(m, lands) => Swapped(l, budget, m, lands)
  }

  function LedgerAfter(budget: Option<real>, events: seq<WatchEvent>): Ledger {
    if events == [] then Ledger(None, 0.0, 0)
    else Next(LedgerAfter(budget, events[..|events| - 1]), budget, events[|events| - 1])
  }

  /** The prices of the boxes this watch has rented by itself, in order. */
  function Rentals(budget: Option<real>, events: seq<WatchEvent>): seq<real> {
    if events == [] then []
    else
      var before, e := events[..|events| - 1], events[|events| - 1];
      Rentals(budget, before)
      + if e.Eviction? && e.lands && ReplacementDecision(RequestOf(LedgerAfter(budget, before), budget, e.m)).Rent?
        then [ReplacementDecision(RequestOf(LedgerAfter(budget, before), budget, e.m)).price]
        else []
  }

  /** What the boxes have cost: every hour observed live at a known rate, at that rate. */
  function Billed(events: seq<WatchEvent>): real {
    if events == [] then 0.0
    else
      var e := events[|events| - 1];
      Billed(events[..|events| - 1])
      + if e.Observation? && e.live && e.dph.Some? && e.dph.value > 0.0 then e.dph.value * e.hours else 0.0
  }

  /** Over any run the spend held against the budget is the bill, no hour left out and
      none counted twice, whatever is swapped. */
  lemma {:induction false} SpendIsBilled(budget: Option<real>, events: seq<WatchEvent>)
    ensures LedgerAfter(budget, events).spend == Billed(events)
  {
    hide ReplacementDecision;
    if events != [] {
      SpendIsBilled(budget, events[..|events| - 1]);
    }
  }

  predicate Priced(e: WatchEvent) { e.Observation? && Known(e.dph).Some? }

  /** The price of the first observation that carried one, whatever came after. */
  function LaunchPrice(events: seq<WatchEvent>): Option<real>
    decreases |events|
  {
    if events == [] then None
    else if Priced(events[0]) then events[0].dph
    else LaunchPrice(events[1..])
  }

  lemma {:induction false} LaunchPriceSnoc(events: seq<WatchEvent>, e: WatchEvent)
    ensures LaunchPrice(events + [e])
            == if LaunchPrice(events).Some? then LaunchPrice(events) else if Priced(e) then e.dph else None
    ensures LaunchPrice(events).Some? ==> LaunchPrice(events).value > 0.0
    decreases |events|
  {
    if events == [] {
      assert ([e])[1..] == [];
    } else {
      LaunchPriceSnoc(events[1..], e);
      assert (events + [e])[1..] == events[1..] + [e];
    }
  }

  /** Over any run of observations, evictions and swaps the anchor is the first price
      ever observed; at most three boxes are rented, and every one of them, the last as
      the first, costs at most the larger of twice and four times that price. */
  lemma {:induction false} RentalsNeverCompound(budget: Option<real>, events: seq<WatchEvent>, price: real)
    ensures var l, rented := LedgerAfter(budget, events), Rentals(budget, events);
            && l.anchor == LaunchPrice(events)
            && l.replacements == |rented| <= MAX_REPLACEMENTS
            && (price in rented ==>
                  && l.anchor.Some?
                  && price <= Max(BaseCeiling(l.anchor.value), EscalationCap(l.anchor.value)))
  {
    hide ReplacementDecision, BaseCeiling, EscalationCap, LaunchPrice, RequestOf;
    if events == [] {
      assert LaunchPrice([]).None? by { NothingLaunched(); }
    } else {
      var n := |events| - 1;
      var before, e := events[..n], events[n];
      var l := LedgerAfter(budget, before);
      RentalsNeverCompound(budget, before, price);
      LaunchPriceSnoc(before, e);
      assert events == before + [e];
      if e.Eviction? && e.lands && ReplacementDecision(RequestOf(l, budget, e.m)).Rent? {
        RentalInBand(l, budget, e.m);
      }
    }
  }

  lemma NothingLaunched()
    ensures LaunchPrice([]).None?
  {
  }

  lemma RentalInBand(l: Ledger, budget: Option<real>, m: Market)
    requires ReplacementDecision(RequestOf(l, budget, m)).Rent?
    ensures l.replacements < MAX_REPLACEMENTS && Known(l.anchor).Some?
    ensures ReplacementDecision(RequestOf(l, budget, m)).price
            <= Max(BaseCeiling(l.anchor.value), EscalationCap(l.anchor.value))
  {
    var r := RequestOf(l, budget, m);
    assert GateOf(r).None? by {
      hide Viable, PreferOnDemand, SpotPrice, ReplacementCeiling, BudgetLeft;
    }
    ReplacementIsComplete(r);
    hide ReplacementDecision, ReplacementCeiling, BudgetLeft, BaseCeiling, EscalationCap;
    CeilingStaysInItsBand(l.anchor.value, Evidence(m.marketFloor, m.pAlt, m.heldOnDemand, BudgetLeft(budget, l.spend), m.remainingH));
  }

  /** The price was read in this eviction's market as an on-demand price, or is a bid that
      clears the floor read there and stays under the machine's own on-demand price. */
  predicate ReadAt(e: WatchEvent, price: real) {
    e.Eviction? &&
    (Known(e.m.offerOnDemand) == Some(price)
     || (e.m.offerMinBid.Some? && e.m.offerMinBid.value <= price
         && (Known(e.m.spotOnDemand).Some? ==> price < e.m.spotOnDemand.value)
         && (Known(e.m.spotOnDemand).None? && Known(e.m.offerOnDemand).Some? ==> price < e.m.offerOnDemand.value)))
  }

  /** No rental of any run is priced off nothing: a watch that never reads an on-demand
      price rents only bids, and every bid clears a floor it did read. */
  lemma {:induction false} RentalsAreRead(budget: Option<real>, events: seq<WatchEvent>, price: real)
    requires price in Rentals(budget, events)
    ensures exists e :: e in events && ReadAt(e, price)
  {
    hide ReplacementDecision, RequestOf, ReadAt;
    var n := |events| - 1;
    var before, e := events[..n], events[n];
    if price in Rentals(budget, before) {
      RentalsAreRead(budget, before, price);
      var f :| f in before && ReadAt(f, price);
      assert f in events;
    } else {
      RentalIsRead(LedgerAfter(budget, before), budget, e);
      assert e in events;
    }
  }

  lemma RentalIsRead(l: Ledger, budget: Option<real>, e: WatchEvent)
    requires e.Eviction? && ReplacementDecision(RequestOf(l, budget, e.m)).Rent?
    ensures ReadAt(e, ReplacementDecision(RequestOf(l, budget, e.m)).price)
  {
    var r := RequestOf(l, budget, e.m);
    assert GateOf(r).None? by {
      hide Viable, PreferOnDemand, SpotPrice, ReplacementCeiling, BudgetLeft;
    }
    if ReplacementDecision(r).rental == Bid {
      RentedBidObeysTheRails(r);
    } else {
      assert Known(r.offerOnDemand).Some? by {
        if Known(r.offerOnDemand).None? {
          UnknownOnDemandIsInert(r);
        }
      }
      hide Viable, PreferOnDemand, SpotPrice, ReplacementCeiling, BudgetLeft;
    }
  }
}
