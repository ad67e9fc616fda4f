/** The five price rails of a standing bid (tools/vast/bidpolicy.py). */
module BidRails {
  import opened Money

  const BID_TARGET_MULT := 1.20
  const BID_TARGET_MULT_UNPRICED := 1.20
  const BID_TARGET_ONDEMAND_FRAC := 0.65
  const BID_MIN_CUSHION_MULT := 1.10
  const BID_CEILING_ONDEMAND_FRAC := 0.75
  const BID_ONDEMAND_EPS := 0.001
  const BID_MIN_STEP := 0.01

  /** Above this floor the rounded cushion never falls below the floor itself. */
  const CUSHION_SAFE_FLOOR := 0.005

  datatype Rail =
    | NoMarketRead
    | TargetRail
    | CeilingCapped
    | RaisedToFloor
    | UnwinnableFloor
    | CushionOverCeiling
    | FloorOverCeiling
    | AtOrOverOnDemand

  datatype BidTarget = BidTarget(price: Option<real>, rail: Rail, ceiling: Option<real>, escalate: bool)

  function EffectiveBidCeiling(onDemand: Option<real>, maxBid: Option<real>): Option<real> {
    match Known(onDemand)
    case None => maxBid
    case Some(od) =>
      Some(Min(Round3(BID_CEILING_ONDEMAND_FRAC * od), Round3(od - BID_ONDEMAND_EPS)))
  }

  function Cushion(floor: real): real { Round3(BID_MIN_CUSHION_MULT * floor) }

  /** Rails 1 and 2: the preference multiple under the on-demand cost cap. */
  function Preferred(floor: real, onDemand: Option<real>): real {
    match Known(onDemand)
    case None => Round3(BID_TARGET_MULT_UNPRICED * floor)
    case Some(od) => Min(Round3(BID_TARGET_MULT * floor), Round3(BID_TARGET_ONDEMAND_FRAC * od))
  }

  /** Rails 3 to 5 over prices already on the grid, in the order the source applies them. */
  function ApplyRails(floor: real, preferred: real, cushion: real, floorBid: real,
                      ceiling: Option<real>, maxBid: Option<real>,
                      hi: Option<real>, od: Option<real>): BidTarget
  {
    if ceiling.Some? && cushion > ceiling.value then
      BidTarget(None, CushionOverCeiling, ceiling, true)
    else
      var capped := ceiling.Some? && preferred > ceiling.value;
      var raised := Max(if capped then ceiling.value else preferred, cushion);
      var t := MinOpt(MinOpt(MinOpt(raised, hi), maxBid), ceiling);
      if t >= floor then
        Dominated(BidTarget(Some(t), if capped then CeilingCapped else TargetRail, ceiling, false), od)
      else if ceiling.Some? && floorBid > ceiling.value then
        BidTarget(None, FloorOverCeiling, ceiling, true)
      else if !(AtMost(floorBid, maxBid) && (od.None? || floorBid < od.value)) then
        BidTarget(None, UnwinnableFloor, ceiling, false)
      else
        Dominated(BidTarget(Some(floorBid), RaisedToFloor, ceiling, false), od)
  }

  /** The last backstop: a bid at or over on-demand is refused whatever the rails said. */
  function Dominated(b: BidTarget, od: Option<real>): BidTarget {
    if od.Some? && b.price.Some? && b.price.value >= od.value
    then BidTarget(None, AtOrOverOnDemand, b.ceiling, true)
    else b
  }

  function BidDecision(marketMinBid: Option<real>, maxBid: Option<real>, onDemand: Option<real>): BidTarget {
    if marketMinBid.None? then BidTarget(None, NoMarketRead, None, false) else
    var floor := marketMinBid.value;
    var od := Known(onDemand);
    var hi := if od.Some? then Some(Round3(od.value - BID_ONDEMAND_EPS)) else None;
    ApplyRails(floor, Preferred(floor, od), Cushion(floor), Ceil3(floor),
               EffectiveBidCeiling(od, maxBid), maxBid, hi, od)
  }

  function Target(marketMinBid: Option<real>, maxBid: Option<real>, onDemand: Option<real>): Option<real> {
    BidDecision(marketMinBid, maxBid, onDemand).price
  }

  lemma NoMarketNoPrice(maxBid: Option<real>, onDemand: Option<real>)
    ensures Target(None, maxBid, onDemand).None?
  {
  }

  // ---- what every emitted price satisfies --------------------------------

  /** The ceiling is strictly below a known on-demand price and never above `hi`. */
  lemma CeilingBelowOnDemand(od: real, maxBid: Option<real>)
    requires od > 0.0
    ensures EffectiveBidCeiling(Some(od), maxBid).Some?
    ensures EffectiveBidCeiling(Some(od), maxBid).value <= Round3(od - BID_ONDEMAND_EPS) < od
    ensures EffectiveBidCeiling(Some(od), maxBid).value <= Round3(BID_CEILING_ONDEMAND_FRAC * od)
  {
    hide Round3;
    Round3Near(od - BID_ONDEMAND_EPS);
  }

  ghost predicate Safe(p: real, floor: real, maxBid: Option<real>, onDemand: Option<real>) {
    && floor <= p
    && AtMost(p, maxBid)
    && AtMost(p, EffectiveBidCeiling(onDemand, maxBid))
    && (Known(onDemand).Some? ==> p < onDemand.value)
    && MinOpt(Cushion(floor), maxBid) <= p
  }

  /** Every emitted price is at or above the floor and under every rail, for any
      floor at all; the last backstop never fires. */
  lemma EmittedBidIsSafe(floor: real, maxBid: Option<real>, onDemand: Option<real>)
    ensures var d := BidDecision(Some(floor), maxBid, onDemand);
            && d.rail != AtOrOverOnDemand
            && (d.price.Some? ==> Safe(d.price.value, floor, maxBid, onDemand))
  {
    hide Round3, Ceil3;
    var od := Known(onDemand);
    if od.Some? {
      CeilingBelowOnDemand(od.value, maxBid);
    }
    Ceil3Bounds(floor);
  }

  lemma CushionCoversFloor(floor: real)
    requires floor >= CUSHION_SAFE_FLOOR
    ensures Cushion(floor) >= floor
  {
    hide Round3;
    Round3Near(BID_MIN_CUSHION_MULT * floor);
  }

  /** The price of every affordable floor: the preference under the ceiling,
      lifted to the cushion, held under the cap. */
  function PricedBid(floor: real, maxBid: Option<real>, onDemand: Option<real>): real {
    Compose(Preferred(floor, onDemand), EffectiveBidCeiling(onDemand, maxBid), Cushion(floor), maxBid)
  }

  function Compose(preferred: real, ceiling: Option<real>, cushion: real, maxBid: Option<real>): real {
    MinOpt(Max(MinOpt(preferred, ceiling), cushion), maxBid)
  }

  /** The rails over any grid prices: refusal exactly when the cushion breaches the ceiling,
      or the composed price falls short of the floor and the floor itself does not fit. */
  lemma ApplyRailsExact(floor: real, preferred: real, cushion: real, floorBid: real,
                        ceiling: Option<real>, maxBid: Option<real>,
                        hi: Option<real>, od: Option<real>)
    requires floor <= floorBid
    requires if od.Some? then ceiling.Some? && hi.Some? && ceiling.value <= hi.value < od.value
                         else hi.None? && ceiling == maxBid
    ensures var d := ApplyRails(floor, preferred, cushion, floorBid, ceiling, maxBid, hi, od);
            var composed := Compose(preferred, ceiling, cushion, maxBid);
            var fits := AtMost(floorBid, ceiling) && AtMost(floorBid, maxBid);
            && (d.price.None? <==> !AtMost(cushion, ceiling) || (composed < floor && !fits))
            && (d.price.Some? ==> d.price.value == if composed >= floor then composed else floorBid)
            && (d.rail == RaisedToFloor <==> preferred < floor && cushion < floor && fits)
            && d.rail != AtOrOverOnDemand
  {
  }

  /** The floor rounded up to the grid passes the ceiling and the cap. */
  predicate FloorFits(floor: real, maxBid: Option<real>, onDemand: Option<real>) {
    AtMost(Ceil3(floor), EffectiveBidCeiling(onDemand, maxBid)) && AtMost(Ceil3(floor), maxBid)
  }

  /** At any floor whatever: when a price comes out, which one it is, and when it is the
      floor itself that is bid. */
  lemma BidDecisionAtAnyFloor(floor: real, maxBid: Option<real>, onDemand: Option<real>)
    ensures var d := BidDecision(Some(floor), maxBid, onDemand);
            var composed := PricedBid(floor, maxBid, onDemand);
            && (d.price.None? <==> !AtMost(Cushion(floor), EffectiveBidCeiling(onDemand, maxBid))
                                   || (composed < floor && !FloorFits(floor, maxBid, onDemand)))
            && (d.price.Some? ==> d.price.value == if composed >= floor then composed else Ceil3(floor))
            && (d.rail == RaisedToFloor <==> Preferred(floor, onDemand) < floor && Cushion(floor) < floor
                                             && FloorFits(floor, maxBid, onDemand))
            && d.rail != AtOrOverOnDemand
  {
    hide Round3, Ceil3, ApplyRails;
    var od := Known(onDemand);
    var hi := if od.Some? then Some(Round3(od.value - BID_ONDEMAND_EPS)) else None;
    Ceil3Bounds(floor);
    if od.Some? {
      CeilingBelowOnDemand(od.value, maxBid);
    }
    ApplyRailsExact(floor, Preferred(floor, od), Cushion(floor), Ceil3(floor),
                    EffectiveBidCeiling(od, maxBid), maxBid, hi, od);
  }

  /** The guard of the two refusing branches, as a caller can evaluate it. */
  predicate Unaffordable(floor: real, maxBid: Option<real>, onDemand: Option<real>) {
    || !AtMost(Cushion(floor), EffectiveBidCeiling(onDemand, maxBid))
    || !AtMost(floor, maxBid)
  }

  /** From half a cent up the refusal is simpler: the cushion breaches the ceiling or the
      floor the cap. The raise-to-floor branch is dead in this range. */
  lemma BidDecisionExact(floor: real, maxBid: Option<real>, onDemand: Option<real>)
    requires floor >= CUSHION_SAFE_FLOOR
    ensures var d := BidDecision(Some(floor), maxBid, onDemand);
            && (d.price.None? <==> Unaffordable(floor, maxBid, onDemand))
            && (d.price.Some? ==> d.price.value == PricedBid(floor, maxBid, onDemand))
            && d.rail != RaisedToFloor
            && d.rail != AtOrOverOnDemand
  {
    hide Round3, Ceil3, BidDecision;
    CushionCoversFloor(floor);
    Ceil3Bounds(floor);
    BidDecisionAtAnyFloor(floor, maxBid, onDemand);
  }

  /** The hard ceiling under a known on-demand price: three quarters of it, and never
      within a tenth of a cent of it. */
  lemma CeilingInFigures(onDemand: Option<real>, maxBid: Option<real>)
    ensures EffectiveBidCeiling(onDemand, maxBid) ==
            if onDemand.Some? && onDemand.value > 0.0
            then Some(Min(Round3(0.75 * onDemand.value), Round3(onDemand.value - 0.001)))
            else maxBid
  {
    hide Round3;
  }

  /** The bid in figures, under a known on-demand price: a fifth over the floor, under 65%
      of on-demand and the ceiling, lifted to a tenth over the floor, held under the cap;
      none exactly when a tenth over the floor passes the ceiling or the floor the cap. */
  lemma BidInFigures(floor: real, maxBid: Option<real>, od: real)
    requires floor >= 0.005 && od > 0.0
    ensures var bid := Target(Some(floor), maxBid, Some(od));
            var ceiling := Min(Round3(0.75 * od), Round3(od - 0.001));
            var wanted := Max(Min(Min(Round3(1.2 * floor), Round3(0.65 * od)), ceiling), Round3(1.1 * floor));
            && (bid.None? <==> Round3(1.1 * floor) > ceiling || (maxBid.Some? && floor > maxBid.value))
            && (bid.Some? ==> bid.value == if maxBid.Some? then Min(wanted, maxBid.value) else wanted)
            && (bid.Some? ==> bid.value <= Round3(1.2 * floor))
  {
    hide Round3, BidDecision;
    BidDecisionExact(floor, maxBid, Some(od));
    CeilingInFigures(Some(od), maxBid);
    Round3Monotone(1.1 * floor, 1.2 * floor);
  }

  /** And with no on-demand price read: a fifth over the floor under the cap alone. */
  lemma BidWithoutOnDemand(floor: real, maxBid: Option<real>, onDemand: Option<real>)
    requires floor >= 0.005 && (onDemand.Some? ==> onDemand.value <= 0.0)
    ensures var bid := Target(Some(floor), maxBid, onDemand);
            && (maxBid.None? ==> bid == Some(Round3(1.2 * floor)))
            && (maxBid.Some? ==>
                  && (bid.None? <==> Round3(1.1 * floor) > maxBid.value || floor > maxBid.value)
                  && (bid.Some? ==> bid.value == Min(Round3(1.2 * floor), maxBid.value)))
  {
    hide Round3, BidDecision;
    BidDecisionExact(floor, maxBid, onDemand);
    CeilingInFigures(onDemand, maxBid);
    Round3Monotone(1.1 * floor, 1.2 * floor);
  }

  /** The floor itself is bid only where a tenth of it rounds away, up to $0.00409. */
  lemma RaiseNeedsATinyFloor(floor: real, maxBid: Option<real>, onDemand: Option<real>)
    requires BidDecision(Some(floor), maxBid, onDemand).rail == RaisedToFloor
    ensures BID_MIN_CUSHION_MULT * floor <= 0.0045
  {
    hide BidDecision, RoundInt, Preferred, Ceil3;
    BidDecisionAtAnyFloor(floor, maxBid, onDemand);
    var y := BID_MIN_CUSHION_MULT * floor * 1000.0;
    RoundIntNearest(y, 0);
    assert RoundInt(y) as real < floor * 1000.0;
    assert RoundInt(y) <= 4;
  }

  /** It does happen there: the cushion and the cost cap both round to under the floor. */
  lemma RaiseToFloorReachable()
    ensures var d := BidDecision(Some(0.0022), None, Some(0.0038));
            d.rail == RaisedToFloor && d.price == Some(0.003)
  {
    assert RoundInt(2.42) == 2;
    assert RoundInt(2.64) == 3;
    assert RoundInt(2.47) == 2;
    assert RoundInt(2.85) == 3;
    assert RoundInt(2.8) == 3;
    assert (-2.2).Floor == -3;
  }

  /** Every price the rails emit is on the grid, or is the cap itself. */
  lemma RailsStayOnGrid(floor: real, maxBid: Option<real>, onDemand: Option<real>)
    requires Target(Some(floor), maxBid, onDemand).Some?
    ensures OnGrid(Target(Some(floor), maxBid, onDemand).value) || Target(Some(floor), maxBid, onDemand) == maxBid
  {
    hide Round3, Ceil3, ApplyRails, OnGrid;
    var od := Known(onDemand);
    Round3OnGrid(BID_TARGET_MULT * floor);
    Round3OnGrid(BID_MIN_CUSHION_MULT * floor);
    Ceil3Bounds(floor);
    if od.Some? {
      Round3OnGrid(BID_TARGET_ONDEMAND_FRAC * od.value);
      Round3OnGrid(BID_CEILING_ONDEMAND_FRAC * od.value);
      Round3OnGrid(od.value - BID_ONDEMAND_EPS);
      var hi := Some(Round3(od.value - BID_ONDEMAND_EPS));
      ApplyRailsGrid(floor, Preferred(floor, od), Cushion(floor), Ceil3(floor),
                     EffectiveBidCeiling(od, maxBid), maxBid, hi, od);
    } else {
      ApplyRailsGrid(floor, Preferred(floor, od), Cushion(floor), Ceil3(floor),
                     EffectiveBidCeiling(od, maxBid), maxBid, None, od);
    }
  }

  lemma ApplyRailsGrid(floor: real, preferred: real, cushion: real, floorBid: real,
                       ceiling: Option<real>, maxBid: Option<real>, hi: Option<real>, od: Option<real>)
    requires OnGrid(preferred) && OnGrid(cushion) && OnGrid(floorBid)
    requires ceiling.Some? ==> OnGrid(ceiling.value) || ceiling == maxBid
    requires hi.Some? ==> OnGrid(hi.value)
    ensures var d := ApplyRails(floor, preferred, cushion, floorBid, ceiling, maxBid, hi, od);
            d.price.Some? ==> OnGrid(d.price.value) || d.price == maxBid
  {
    hide OnGrid;
    var d := ApplyRails(floor, preferred, cushion, floorBid, ceiling, maxBid, hi, od);
    assert d.price.Some? ==>
        d.price.value == preferred || d.price.value == cushion || d.price.value == floorBid
        || d.price == ceiling || d.price == maxBid || d.price == hi;
  }

  // ---- monotonicity ------------------------------------------------------

  /** `a` is at most `b`, an absent bound being the largest. */
  predicate BoundLe(a: Option<real>, b: Option<real>) {
    b.Some? ==> a.Some? && a.value <= b.value
  }

  lemma ComposeMonotone(p: real, p': real, c: Option<real>, c': Option<real>,
                        k: real, k': real, m: Option<real>, m': Option<real>)
    requires p <= p' && BoundLe(c, c') && k <= k' && BoundLe(m, m')
    ensures Compose(p, c, k, m) <= Compose(p', c', k', m')
  {
  }

  lemma PreferredMonotone(floor: real, floor': real, onDemand: Option<real>, onDemand': Option<real>)
    requires floor <= floor'
    requires onDemand == onDemand' || (onDemand.Some? && onDemand'.Some? && 0.0 < onDemand.value <= onDemand'.value)
    ensures Preferred(floor, onDemand) <= Preferred(floor', onDemand')
  {
    hide Round3;
    Round3Monotone(BID_TARGET_MULT * floor, BID_TARGET_MULT * floor');
    if Known(onDemand).Some? {
      Round3Monotone(BID_TARGET_ONDEMAND_FRAC * onDemand.value, BID_TARGET_ONDEMAND_FRAC * onDemand'.value);
    }
  }

  lemma CeilingMonotone(lo: real, hi: real, maxBid: Option<real>)
    requires 0.0 < lo <= hi
    ensures BoundLe(EffectiveBidCeiling(Some(lo), maxBid), EffectiveBidCeiling(Some(hi), maxBid))
  {
    hide Round3;
    Round3Monotone(BID_CEILING_ONDEMAND_FRAC * lo, BID_CEILING_ONDEMAND_FRAC * hi);
    Round3Monotone(lo - BID_ONDEMAND_EPS, hi - BID_ONDEMAND_EPS);
  }

  /** A grid price, or the cap, that clears a floor clears the grid point over it. */
  lemma ClearsTheGrid(floor: real, maxBid: Option<real>, onDemand: Option<real>, tiny: real)
    requires Target(Some(floor), maxBid, onDemand).Some? && tiny <= floor && AtMost(Ceil3(tiny), maxBid)
    ensures Ceil3(tiny) <= Target(Some(floor), maxBid, onDemand).value
  {
    hide Ceil3, OnGrid, BidDecision;
    var p := Target(Some(floor), maxBid, onDemand).value;
    EmittedBidIsSafe(floor, maxBid, onDemand);
    RailsStayOnGrid(floor, maxBid, onDemand);
    if OnGrid(p) {
      Ceil3Least(tiny, p);
    }
  }

  /** Where both floors get a price, the higher floor's is no lower. And below a priced
      floor, a floor is priced exactly unless the rails compose a price under it and it
      does not fit itself; from half a cent up that never happens. */
  lemma MonotoneInFloor(lo: real, hi: real, maxBid: Option<real>, onDemand: Option<real>)
    requires lo <= hi
    requires Target(Some(hi), maxBid, onDemand).Some?
    ensures Target(Some(lo), maxBid, onDemand).Some?
            <==> PricedBid(lo, maxBid, onDemand) >= lo || FloorFits(lo, maxBid, onDemand)
    ensures lo >= CUSHION_SAFE_FLOOR ==> Target(Some(lo), maxBid, onDemand).Some?
    ensures Target(Some(lo), maxBid, onDemand).Some? ==>
              Target(Some(lo), maxBid, onDemand).value <= Target(Some(hi), maxBid, onDemand).value
  {
    hide Round3, Ceil3, BidDecision, FloorFits;
    var c := EffectiveBidCeiling(onDemand, maxBid);
    BidDecisionAtAnyFloor(lo, maxBid, onDemand);
    BidDecisionAtAnyFloor(hi, maxBid, onDemand);
    PreferredMonotone(lo, hi, onDemand, onDemand);
    Round3Monotone(BID_MIN_CUSHION_MULT * lo, BID_MIN_CUSHION_MULT * hi);
    ComposeMonotone(Preferred(lo, onDemand), Preferred(hi, onDemand), c, c,
                    Cushion(lo), Cushion(hi), maxBid, maxBid);
    if lo >= CUSHION_SAFE_FLOOR {
      BidDecisionExact(lo, maxBid, onDemand);
      BidDecisionExact(hi, maxBid, onDemand);
    }
    EmittedBidIsSafe(hi, maxBid, onDemand);
    if PricedBid(lo, maxBid, onDemand) < lo && FloorFits(lo, maxBid, onDemand) {
      assert AtMost(Ceil3(lo), maxBid) by { FitsTheCap(lo, maxBid, onDemand); }
      ClearsTheGrid(hi, maxBid, onDemand, lo);
    }
  }

  lemma FitsTheCap(floor: real, maxBid: Option<real>, onDemand: Option<real>)
    requires FloorFits(floor, maxBid, onDemand)
    ensures AtMost(Ceil3(floor), maxBid)
  {
  }

  /** Under half a cent a lower floor can lose its price while a higher one keeps it. */
  lemma TinyFloorLosesItsPrice()
    ensures Target(Some(0.0031), Some(0.0035), Some(0.0053)).None?
    ensures Target(Some(0.0033), Some(0.0035), Some(0.0053)).Some?
  {
    assert RoundInt(3.41) == 3 && RoundInt(3.63) == 4;
    assert RoundInt(3.72) == 4 && RoundInt(3.96) == 4;
    assert RoundInt(3.445) == 3 && RoundInt(3.975) == 4 && RoundInt(4.3) == 4;
    assert (-3.1).Floor == -4 && (-3.3).Floor == -4;
  }

  /** The rails over any prices at all: loosening the cap, and with no on-demand line the
      ceiling it stands in for, keeps the price and never lowers it. */
  lemma LooserRails(floor: real, preferred: real, cushion: real, floorBid: real,
                    c: Option<real>, c': Option<real>, m: Option<real>, m': Option<real>,
                    hi: Option<real>, od: Option<real>)
    requires floor <= floorBid && BoundLe(m, m')
    requires if od.Some? then c == c' && c.Some? && hi.Some? && c.value <= hi.value < od.value
                         else hi.None? && c == m && c' == m'
    ensures var d := ApplyRails(floor, preferred, cushion, floorBid, c, m, hi, od);
            var d' := ApplyRails(floor, preferred, cushion, floorBid, c', m', hi, od);
            d.price.Some? ==> d'.price.Some? && d.price.value <= d'.price.value
  {
  }

  /** A looser cap never lowers the price and never loses one, at any floor. */
  lemma MonotoneInMaxBid(floor: real, tight: Option<real>, loose: Option<real>, onDemand: Option<real>)
    requires BoundLe(tight, loose)
    requires Target(Some(floor), tight, onDemand).Some?
    ensures Target(Some(floor), loose, onDemand).Some?
    ensures Target(Some(floor), tight, onDemand).value <= Target(Some(floor), loose, onDemand).value
  {
    hide Round3, Ceil3, ApplyRails;
    var od := Known(onDemand);
    var hi := if od.Some? then Some(Round3(od.value - BID_ONDEMAND_EPS)) else None;
    Ceil3Bounds(floor);
    if od.Some? {
      CeilingBelowOnDemand(od.value, tight);
    }
    LooserRails(floor, Preferred(floor, od), Cushion(floor), Ceil3(floor),
                EffectiveBidCeiling(od, tight), EffectiveBidCeiling(od, loose), tight, loose, hi, od);
  }

  /** A dearer on-demand price never lowers the bid and never loses one, at any floor. */
  lemma MonotoneInOnDemand(floor: real, maxBid: Option<real>, lo: real, hi: real)
    requires 0.0 < lo <= hi
    requires Target(Some(floor), maxBid, Some(lo)).Some?
    ensures Target(Some(floor), maxBid, Some(hi)).Some?
    ensures Target(Some(floor), maxBid, Some(lo)).value <= Target(Some(floor), maxBid, Some(hi)).value
  {
    hide Round3, Ceil3, BidDecision;
    BidDecisionAtAnyFloor(floor, maxBid, Some(lo));
    BidDecisionAtAnyFloor(floor, maxBid, Some(hi));
    PreferredMonotone(floor, floor, Some(lo), Some(hi));
    CeilingMonotone(lo, hi, maxBid);
    ComposeMonotone(Preferred(floor, Some(lo)), Preferred(floor, Some(hi)),
                    EffectiveBidCeiling(Some(lo), maxBid), EffectiveBidCeiling(Some(hi), maxBid),
                    Cushion(floor), Cushion(floor), maxBid, maxBid);
    if PricedBid(floor, maxBid, Some(lo)) < floor {
      ClearsTheGrid(floor, maxBid, Some(hi), floor);
    }
  }
}
