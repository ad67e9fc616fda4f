/** The bid ladder: defend, decay and rescue moves, the step function that
    guards them, and whole runs of them (tools/vast/bidpolicy.py, driven as in
    tools/vast/vastlib/supervise/run_lane.py and job_lane.py). */
module BidLadder {
  import opened Money
  import opened BidRails
  import opened Rebid
  import SelfFloor

  const DEFEND_AT := 0.9
  const BID_RATE_LIMIT_S := 60.0
  const NOMINAL_TICK_S := 45.0
  const BID_DECAY_S := 2.0 * NOMINAL_TICK_S
  const BID_DECAY_POLLS := 3
  const REBID_WAIT_S := 300.0
  const NOT_LIVE_DEBOUNCE := 2

  datatype BidState = BidState(
    present: bool, statusLive: bool, now: real,
    lastBid: Option<real>, lastPutTs: real, marketMinBid: Option<real>,
    maxBid: Option<real>, onDemand: Option<real>, defendAt: Option<real>,
    rescueAttempted: bool, decayStreak: nat, decaySince: Option<real>,
    bidHistory: seq<SelfFloor.Entry>, machineId: Option<string>,
    rescue: RescueTerms)

  /** What only the notification-priced rescue quote reads. */
  datatype RescueTerms = RescueTerms(notifyMinBid: Option<real>, anchor: Option<real>,
                                     rebidCeilingMult: Option<real>, defenseCap: Option<real>,
                                     budget: Option<real>, spend: real)

  datatype Move = RaiseBid(price: real) | LowerBid(price: real) | RescueBid(price: real)

  predicate Live(s: BidState) { s.present && s.statusLive }

  function TargetOf(s: BidState): Option<real> { Target(s.marketMinBid, s.maxBid, s.onDemand) }

  // ---- decay -------------------------------------------------------------

  predicate DecayCandidate(s: BidState) {
    Live(s) && s.lastBid.Some? && TargetOf(s).Some? && TargetOf(s).value + BID_MIN_STEP < s.lastBid.value
  }

  datatype DecayStreak = DecayStreak(streak: nat, since: Option<real>)

  function NextDecayState(s: BidState): DecayStreak {
    if !DecayCandidate(s) then DecayStreak(0, None)
    else
      var since := if s.decayStreak == 0 || s.decaySince.None? then Some(s.now) else s.decaySince;
      DecayStreak(s.decayStreak + 1, since)
  }

  /** A tick extends the run exactly when the box is live and its bid stands over a cent
      above the target; the run counts its ticks and keeps the time of its first, and
      any other tick ends it. */
  lemma DecayRunExactly(s: BidState)
    ensures var target := Target(s.marketMinBid, s.maxBid, s.onDemand);
            var slack := s.present && s.statusLive && s.lastBid.Some? && target.Some? && target.value + 0.01 < s.lastBid.value;
            NextDecayState(s) ==
              if !slack then DecayStreak(0, None)
              else DecayStreak(s.decayStreak + 1, if s.decayStreak > 0 && s.decaySince.Some? then s.decaySince else Some(s.now))
  {
    hide BidDecision;
  }

  predicate DecayDwellSatisfied(s: BidState) {
    s.decayStreak > 0
    && if s.decaySince.Some? then s.now - s.decaySince.value >= BID_DECAY_S
       else s.decayStreak >= BID_DECAY_POLLS
  }

  // ---- the price a recent raise owns --------------------------------------

  datatype Seen = Seen(ts: real, price: real)

  predicate Before(a: Seen, b: Seen) { a.ts < b.ts || (a.ts == b.ts && a.price <= b.price) }

  predicate InTimeOrder(s: seq<Seen>) { forall i, j :: 0 <= i < j < |s| ==> Before(s[i], s[j]) }

  function InsertSeen(s: seq<Seen>, x: Seen): (r: seq<Seen>)
    ensures |r| == |s| + 1 && multiset(r) == multiset(s) + multiset{x}
  {
    if s == [] || Before(s[|s| - 1], x) then s + [x]
    else
      assert s == s[..|s| - 1] + [s[|s| - 1]];
      InsertSeen(s[..|s| - 1], x) + [s[|s| - 1]]
  }

  lemma {:induction false} InsertKeepsOrder(s: seq<Seen>, x: Seen)
    requires InTimeOrder(s)
    ensures InTimeOrder(InsertSeen(s, x))
  {
    if s == [] || Before(s[|s| - 1], x) {
    } else {
      var init, last := s[..|s| - 1], s[|s| - 1];
      InsertKeepsOrder(init, x);
      var r := InsertSeen(init, x);
      forall i | 0 <= i < |r| ensures Before(r[i], last) {
        assert r[i] in multiset(r);
        assert r[i] in multiset(init) || r[i] == x;
      }
    }
  }

  /** The positive prices recorded for the box's own machine, as they were recorded. */
  function Recorded(hist: seq<SelfFloor.Entry>, machineId: Option<string>): seq<Seen> {
    if hist == [] then []
    else
      var init := Recorded(hist[..|hist| - 1], machineId);
      var e := hist[|hist| - 1];
      if e.price > 0.0 && (machineId.Some? ==> e.machine == machineId.value)
      then init + [Seen(e.tsFirst, e.price)]
      else init
  }

  /** The same prices in time order. */
  function SeenPrices(hist: seq<SelfFloor.Entry>, machineId: Option<string>): seq<Seen> {
    if hist == [] then []
    else
      var init := SeenPrices(hist[..|hist| - 1], machineId);
      var e := hist[|hist| - 1];
      if e.price > 0.0 && (machineId.Some? ==> e.machine == machineId.value)
      then InsertSeen(init, Seen(e.tsFirst, e.price))
      else init
  }

  /** A price is in the record exactly when some positive entry of the machine put it there. */
  lemma RecordedExactly(hist: seq<SelfFloor.Entry>, machineId: Option<string>, x: Seen)
    ensures x in Recorded(hist, machineId) <==>
            exists e :: e in hist && e.price > 0.0 && (machineId.Some? ==> e.machine == machineId.value)
                        && x == Seen(e.tsFirst, e.price)
  {
    if hist != [] {
      assert hist == hist[..|hist| - 1] + [hist[|hist| - 1]];
      RecordedExactly(hist[..|hist| - 1], machineId, x);
    }
  }

  lemma {:induction false} SeenPricesAreTheRecord(hist: seq<SelfFloor.Entry>, machineId: Option<string>)
    ensures var seen := SeenPrices(hist, machineId);
            InTimeOrder(seen) && multiset(seen) == multiset(Recorded(hist, machineId))
  {
    hide InTimeOrder, InsertSeen;
    if hist == [] {
      assert InTimeOrder([]) by { NothingIsInOrder(); }
    } else {
      var e := hist[|hist| - 1];
      SeenPricesAreTheRecord(hist[..|hist| - 1], machineId);
      InsertKeepsOrder(SeenPrices(hist[..|hist| - 1], machineId), Seen(e.tsFirst, e.price));
    }
  }

  lemma NothingIsInOrder()
    ensures InTimeOrder([])
  {
  }

  lemma SameGreatest(a: seq<Seen>, b: seq<Seen>)
    requires InTimeOrder(a) && InTimeOrder(b) && multiset(a) == multiset(b) && a != []
    ensures b != [] && a[|a| - 1] == b[|b| - 1]
  {
    assert a[|a| - 1] in multiset(b);
    var x, y := a[|a| - 1], b[|b| - 1];
    assert y in multiset(a);
    assert Before(y, x) && Before(x, y);
  }

  /** There is one such order, however it is reached. */
  lemma {:induction false} TimeOrderIsUnique(a: seq<Seen>, b: seq<Seen>)
    requires InTimeOrder(a) && InTimeOrder(b) && multiset(a) == multiset(b)
    ensures a == b
  {
    if a == [] {
      if b != [] {
        SameGreatest(b, a);
      }
    } else {
      SameGreatest(a, b);
      OrderInit(a);
      OrderInit(b);
      MultisetInit(a);
      MultisetInit(b);
      hide InTimeOrder, Before;
      TimeOrderIsUnique(a[..|a| - 1], b[..|b| - 1]);
      assert a == a[..|a| - 1] + [a[|a| - 1]] && b == b[..|b| - 1] + [b[|b| - 1]];
    }
  }

  lemma MultisetInit(a: seq<Seen>)
    requires a != []
    ensures multiset(a[..|a| - 1]) == multiset(a) - multiset{a[|a| - 1]}
  {
    assert a == a[..|a| - 1] + [a[|a| - 1]];
  }

  lemma OrderInit(a: seq<Seen>)
    requires InTimeOrder(a) && a != []
    ensures InTimeOrder(a[..|a| - 1])
  {
  }

  predicate RecentRaise(seen: seq<Seen>, i: nat, now: real) {
    0 < i < |seen| && seen[i].price > seen[i - 1].price && now - seen[i].ts < REBID_WAIT_S
  }

  ghost predicate IsHold(hold: Option<real>, seen: seq<Seen>, now: real) {
    && (hold.None? <==> forall i :: 0 <= i < |seen| ==> !RecentRaise(seen, i, now))
    && (hold.Some? ==> exists i :: 0 <= i < |seen| && RecentRaise(seen, i, now) && seen[i].price == hold.value)
    && (hold.Some? ==> forall i :: 0 <= i < |seen| && RecentRaise(seen, i, now) ==> seen[i].price <= hold.value)
  }

  function HoldOf(seen: seq<Seen>, now: real): (hold: Option<real>)
    ensures IsHold(hold, seen, now)
  {
    if seen == [] then None
    else
      var n := |seen| - 1;
      var init := HoldOf(seen[..n], now);
      assert forall i :: 0 <= i < n ==> (RecentRaise(seen[..n], i, now) <==> RecentRaise(seen, i, now));
      if RecentRaise(seen, n, now) then Some(if init.Some? then Max(init.value, seen[n].price) else seen[n].price)
      else init
  }

  /** The hold is that of the recorded prices in time order: of any sequence that holds
      exactly them, in that order. */
  lemma HoldIsOfTheRecord(hist: seq<SelfFloor.Entry>, machineId: Option<string>, now: real, seen: seq<Seen>)
    requires InTimeOrder(seen) && multiset(seen) == multiset(Recorded(hist, machineId))
    ensures IsHold(HoldOf(SeenPrices(hist, machineId), now), seen, now)
  {
    hide InTimeOrder, Recorded;
    SeenPricesAreTheRecord(hist, machineId);
    TimeOrderIsUnique(seen, SeenPrices(hist, machineId));
  }

  method RecentRaiseHold(hist: seq<SelfFloor.Entry>, machineId: Option<string>, now: real)
    returns (hold: Option<real>)
    ensures hold == HoldOf(SeenPrices(hist, machineId), now)
  {
    var seen: seq<Seen> := [];
    for i := 0 to |hist|
      invariant seen == SeenPrices(hist[..i], machineId)
    {
      assert hist[..i + 1][..i] == hist[..i];
      var e := hist[i];
      if e.price > 0.0 && (machineId.None? || e.machine == machineId.value) {
        seen := InsertSeen(seen, Seen(e.tsFirst, e.price));
      }
    }
    assert hist[..|hist|] == hist;
    hold := None;
    for i := 0 to |seen|
      invariant hold == HoldOf(seen[..i], now)
    {
      assert seen[..i + 1][..i] == seen[..i];
      if 0 < i && seen[i].price > seen[i - 1].price && now - seen[i].ts < REBID_WAIT_S {
        hold := if hold.None? then Some(seen[i].price) else Some(Max(hold.value, seen[i].price));
      }
    }
    assert seen[..|seen|] == seen;
  }

  // ---- one move -----------------------------------------------------------

  function RescueStateOf(s: BidState): RescueState {
    RescueState(s.rescue.notifyMinBid, s.marketMinBid, s.rescue.anchor, s.maxBid, s.onDemand,
                s.rescue.rebidCeilingMult, s.rescue.defenseCap, s.rescue.budget, s.rescue.spend)
  }

  function RescueTarget(s: BidState): Option<real> {
    var quote := NotifyRescueBound(RescueStateOf(s));
    if quote.floor.None? then TargetOf(s) else quote.price
  }

  function LiveMove(s: BidState, target: real, lastBid: real): Option<Move> {
    var defendAt := if s.defendAt.Some? then s.defendAt.value else DEFEND_AT;
    if s.marketMinBid.Some? && s.marketMinBid.value >= defendAt * lastBid && target - lastBid >= BID_MIN_STEP then
      Some(RaiseBid(target))
    else if DecayDwellSatisfied(s) && target + BID_MIN_STEP < lastBid then
      var hold := HoldOf(SeenPrices(s.bidHistory, s.machineId), s.now);
      if hold.Some? && target < hold.value then None else Some(LowerBid(target))
    else None
  }

  function BidAction(s: BidState): Option<Move> {
    var target := TargetOf(s);
    var rescueTarget := RescueTarget(s);
    if target.None? && rescueTarget.None? then None
    else if s.lastBid.None? then None
    else if s.now - s.lastPutTs < BID_RATE_LIMIT_S then None
    else if Live(s) then
      if target.None? then None else LiveMove(s, target.value, s.lastBid.value)
    else if s.present && !s.rescueAttempted && rescueTarget.Some? && rescueTarget.value > s.lastBid.value then
      Some(RescueBid(rescueTarget.value))
    else None
  }

  /** No move of any kind passes the operator's cap, the hard ceiling or
      on-demand; a defend or a decay clears the floor it was priced off, a raise
      or a rescue raises, a decay lowers by more than a cent. */
  lemma MovesAreSafe(s: BidState)
    requires BidAction(s).Some?
    ensures var m := BidAction(s).value;
            && AtMost(m.price, s.maxBid)
            && AtMost(m.price, EffectiveBidCeiling(s.onDemand, s.maxBid))
            && (Known(s.onDemand).Some? ==> m.price < s.onDemand.value)
            && (m.RescueBid? <==> !Live(s))
            && (!m.RescueBid? ==> s.marketMinBid.value <= m.price)
            && (m.RaiseBid? ==> m.price >= s.lastBid.value + BID_MIN_STEP)
            && (m.RescueBid? ==> m.price > s.lastBid.value)
            && (m.LowerBid? ==> m.price + BID_MIN_STEP < s.lastBid.value)
  {
    hide BidDecision, NotifyRescueBound, HoldOf, SeenPrices, Round3;
    NoMarketNoPrice(s.maxBid, s.onDemand);
    if TargetOf(s).Some? {
      EmittedBidIsSafe(s.marketMinBid.value, s.maxBid, s.onDemand);
    }
    if NotifyRescueBound(RescueStateOf(s)).price.Some? {
      QuoteUnderTheCeiling(s);
    }
  }

  /** No raise within the last five minutes first paid more than `price`. */
  ghost predicate NoDearerRaise(seen: seq<Seen>, now: real, price: real) {
    forall i, k :: 0 <= i < k < |seen| && k == i + 1 && seen[k].price > seen[i].price && now - seen[k].ts < 300.0
                   ==> seen[k].price <= price
  }

  lemma HoldAllows(seen: seq<Seen>, now: real, price: real)
    ensures (HoldOf(seen, now).Some? ==> HoldOf(seen, now).value <= price) <==> NoDearerRaise(seen, now, price)
  {
    hide HoldOf;
    var hold := HoldOf(seen, now);
    if hold.Some? && NoDearerRaise(seen, now, price) {
      var k :| 0 <= k < |seen| && RecentRaise(seen, k, now) && seen[k].price == hold.value;
      assert 0 <= k - 1 < k < |seen|;
    }
    forall i, k | 0 <= i < k < |seen| && k == i + 1 && seen[k].price > seen[i].price && now - seen[k].ts < 300.0
      ensures hold.Some? && seen[k].price <= hold.value
    {
      assert RecentRaise(seen, k, now);
    }
  }

  /** A live box is defended, past the rate limit, exactly when the floor has come up to
      nine tenths of its bid (or the fraction given) and the target is a cent above it.
      Else it decays exactly when the dwell is served, the target is more than a cent
      below and no recent raise paid more. Else its bid is left alone. */
  lemma LiveBoxMovesExactly(s: BidState, bid: real)
    requires s.present && s.statusLive && s.lastBid == Some(bid)
    ensures var target := Target(s.marketMinBid, s.maxBid, s.onDemand);
            var due := target.Some? && s.now - s.lastPutTs >= 60.0;
            var pressed := due && s.marketMinBid.value >= (if s.defendAt.Some? then s.defendAt.value else 0.9) * bid
                           && target.value >= bid + 0.01;
            var dwelt := s.decayStreak > 0
                         && if s.decaySince.Some? then s.now - s.decaySince.value >= 90.0 else s.decayStreak >= 3;
            var slack := due && !pressed && dwelt && target.value + 0.01 < bid
                         && NoDearerRaise(SeenPrices(s.bidHistory, s.machineId), s.now, target.value);
            BidAction(s) == if pressed then Some(RaiseBid(target.value))
                            else if slack then Some(LowerBid(target.value)) else None
  {
    hide BidDecision, NotifyRescueBound, HoldOf, SeenPrices, NoDearerRaise;
    NoMarketNoPrice(s.maxBid, s.onDemand);
    if TargetOf(s).Some? {
      HoldAllows(SeenPrices(s.bidHistory, s.machineId), s.now, TargetOf(s).value);
    }
  }

  /** A lost box is rescued, past the rate limit, exactly when it is still listed, has not
      been rescued this time round, and the notification's quote, or without one the
      target, beats its bid. */
  lemma LostBoxMovesExactly(s: BidState)
    requires !(s.present && s.statusLive)
    ensures var quote := NotifyRescueBound(RescueStateOf(s));
            var price := if quote.floor.Some? then quote.price else Target(s.marketMinBid, s.maxBid, s.onDemand);
            var winnable := s.present && !s.rescueAttempted && s.lastBid.Some? && s.now - s.lastPutTs >= 60.0
                            && price.Some? && price.value > s.lastBid.value;
            BidAction(s) == if winnable then Some(RescueBid(price.value)) else None
  {
    hide BidDecision, NotifyRescueBound;
  }

  lemma QuoteUnderTheCeiling(s: BidState)
    requires NotifyRescueBound(RescueStateOf(s)).price.Some?
    ensures var p := NotifyRescueBound(RescueStateOf(s)).price.value;
            && AtMost(p, s.maxBid)
            && AtMost(p, EffectiveBidCeiling(s.onDemand, s.maxBid))
            && (Known(s.onDemand).Some? ==> p < s.onDemand.value)
  {
    hide BidDecision, Round3, NotifyRescueBound;
    var r := RescueStateOf(s);
    RescueQuoteIsBounded(r);
    var mult := if r.rebidCeilingMult.Some? then r.rebidCeilingMult.value else REBID_CEILING_MULT;
    RebidCeilingBinds(r.anchor, r.maxBid, r.onDemand, mult, r.defenseCap);
  }

  /** A decay never undercuts a price some raise first paid in the last five minutes. */
  lemma DecayKeepsRecentRaise(s: BidState, i: nat)
    requires BidAction(s).Some? && BidAction(s).value.LowerBid?
    requires RecentRaise(SeenPrices(s.bidHistory, s.machineId), i, s.now)
    ensures SeenPrices(s.bidHistory, s.machineId)[i].price <= BidAction(s).value.price
  {
    hide BidDecision, NotifyRescueBound;
  }

  // ---- the step function ---------------------------------------------------

  datatype PollState = PollState(
    bid: BidState, terminal: bool, intendedStopped: bool, handoffFenced: bool, stoppedByCli: bool,
    rawFloor: Option<real>, budget: Option<real>, spend: real, wallBudget: Option<real>, wallClock: real,
    notLiveStreak: nat, relaunchCount: nat, maxRelaunch: nat, evicted: bool, backoffReady: bool)

  datatype PollAction = StopTerminal | StopBudget | BidMove(move: Move) | Noop | EmitEvicted | Relaunch

  predicate CapReached(cap: Option<real>, used: real) { cap.Some? && used >= cap.value }

  predicate SpendTimeExceeded(p: PollState) {
    CapReached(p.budget, p.spend) || CapReached(p.wallBudget, p.wallClock)
  }

  /** The park is vast's own: our bid sits strictly under the unfiltered floor. */
  predicate UnderbidParked(p: PollState) {
    var floor := if p.rawFloor.Some? then p.rawFloor else p.bid.marketMinBid;
    p.bid.lastBid.Some? && floor.Some? && p.bid.lastBid.value < floor.value
  }

  predicate OperatorIntent(p: PollState) {
    && !p.handoffFenced
    && ((p.intendedStopped && (p.stoppedByCli || !UnderbidParked(p)))
        || (!p.bid.present && p.stoppedByCli))
  }

  function Poll(p: PollState): PollAction {
    if p.terminal || OperatorIntent(p) then StopTerminal
    else if SpendTimeExceeded(p) then StopBudget
    else if Live(p.bid) then
      if BidAction(p.bid).Some? then BidMove(BidAction(p.bid).value) else Noop
    else if p.notLiveStreak < NOT_LIVE_DEBOUNCE then Noop
    else if p.relaunchCount >= p.maxRelaunch then StopBudget
    else if BidAction(p.bid).Some? then BidMove(BidAction(p.bid).value)
    else if !p.evicted then EmitEvicted
    else if !p.backoffReady then Noop
    else Relaunch
  }

  /** Nothing that spends is reached past a stop: any bid move or relaunch comes
      from a run that is not over, not stopped by its operator and inside its
      caps; a lost box is never defended and a live one never relaunched; and
      while a legal winning rescue exists the box is rescued, not destroyed. */
  lemma SpendingIsGuarded(p: PollState)
    requires Poll(p).BidMove? || Poll(p).Relaunch?
    ensures !p.terminal && !OperatorIntent(p) && !SpendTimeExceeded(p)
    ensures Poll(p).BidMove? ==> (Poll(p).move.RescueBid? <==> !Live(p.bid))
    ensures Poll(p).Relaunch? ==> !Live(p.bid) && p.relaunchCount < p.maxRelaunch
    ensures Poll(p).Relaunch? && p.bid.present && !p.bid.rescueAttempted && p.bid.lastBid.Some?
            && p.bid.now - p.bid.lastPutTs >= BID_RATE_LIMIT_S
            ==> AtMostBid(RescueTarget(p.bid), p.bid.lastBid.value)
  {
    hide TargetOf, RescueTarget, HoldOf, SeenPrices;
  }

  /** A loss is answered in one order: a box that can be won back is rescued; only one
      that cannot is announced lost, and only an announced one is replaced, after its
      back-off. Nothing else ends such a tick. */
  lemma LossIsAnswered(p: PollState)
    requires !p.terminal && !OperatorIntent(p) && !SpendTimeExceeded(p)
    requires !Live(p.bid) && p.notLiveStreak >= NOT_LIVE_DEBOUNCE && p.relaunchCount < p.maxRelaunch
    ensures var winnable := p.bid.present && !p.bid.rescueAttempted && p.bid.lastBid.Some?
                            && p.bid.now - p.bid.lastPutTs >= BID_RATE_LIMIT_S
                            && !AtMostBid(RescueTarget(p.bid), p.bid.lastBid.value);
            && (Poll(p).BidMove? <==> winnable)
            && (winnable ==> Poll(p) == BidMove(RescueBid(RescueTarget(p.bid).value)))
            && (Poll(p) == EmitEvicted <==> !winnable && !p.evicted)
            && (Poll(p) == Relaunch <==> !winnable && p.evicted && p.backoffReady)
  {
    hide TargetOf, RescueTarget, OperatorIntent, SpendTimeExceeded, LiveMove;
  }

  /** A stopped run is an operator's doing, with no handoff fence open, when the operator
      asked for it, or when the box was stopped with its bid not under the floor: a bid at
      the floor explains no stop. */
  lemma OperatorIntentExactly(p: PollState)
    ensures OperatorIntent(p) <==>
              && !p.handoffFenced
              && if p.stoppedByCli then p.intendedStopped || !p.bid.present
                 else p.intendedStopped
                      && (p.bid.lastBid.None? || (p.rawFloor.None? && p.bid.marketMinBid.None?)
                          || p.bid.lastBid.value >= (if p.rawFloor.Some? then p.rawFloor else p.bid.marketMinBid).value)
  {
  }

  /** The order of a tick's answers in full: stops, then the live box's move, then for a lost
      one the debounce, the relaunch cap, the rescue, the announcement and the relaunch. */
  lemma PollInOrder(p: PollState)
    ensures var spent := (p.budget.Some? && p.spend >= p.budget.value)
                         || (p.wallBudget.Some? && p.wallClock >= p.wallBudget.value);
            var move := BidAction(p.bid);
            Poll(p) ==
              if p.terminal || OperatorIntent(p) then StopTerminal
              else if spent then StopBudget
              else if p.bid.present && p.bid.statusLive && move.Some? then BidMove(move.value)
              else if p.bid.present && p.bid.statusLive then PollAction.Noop
              else if p.notLiveStreak <= 1 then PollAction.Noop
              else if p.relaunchCount >= p.maxRelaunch then StopBudget
              else if move.Some? then BidMove(move.value)
              else if !p.evicted then EmitEvicted
              else if p.backoffReady then Relaunch else PollAction.Noop
  {
    hide BidAction, OperatorIntent;
  }

  predicate AtMostBid(price: Option<real>, bid: real) { price.Some? ==> price.value <= bid }

  // ---- runs ---------------------------------------------------------------

  datatype Lane = RunLane | JobsLane

  /** What the lane carries between ticks. */
  datatype Watch = Watch(lastBid: real, lastPutTs: real, streak: nat, since: Option<real>)

  /** One tick's reads; the history is whatever the lane recorded, and `putLands`
      says whether the market accepted a bid PUT. */
  datatype Obs = Obs(now: real, present: bool, statusLive: bool, floor: Option<real>,
                     maxBid: Option<real>, onDemand: Option<real>, defendAt: Option<real>,
                     rescueAttempted: bool, bidHistory: seq<SelfFloor.Entry>, machineId: Option<string>,
                     rescue: RescueTerms, putLands: bool)

  function StateOf(w: Watch, o: Obs): BidState {
    BidState(o.present, o.statusLive, o.now, Some(w.lastBid), w.lastPutTs, o.floor, o.maxBid, o.onDemand,
             o.defendAt, o.rescueAttempted, w.streak, w.since, o.bidHistory, o.machineId, o.rescue)
  }

  /** The state the decision reads: the decay run is advanced first. */
  function Decided(w: Watch, o: Obs): BidState {
    var d := NextDecayState(StateOf(w, o));
    StateOf(w.(streak := d.streak, since := d.since), o)
  }

  function MoveAt(w: Watch, o: Obs): Option<Move> { BidAction(Decided(w, o)) }

  function Tick(w: Watch, o: Obs, lane: Lane): Watch {
    var s := Decided(w, o);
    var m := BidAction(s);
    if m.None? then w.(streak := s.decayStreak, since := s.decaySince)
    else
      var restart := m.value.LowerBid? && (o.putLands || lane == RunLane);
      Watch(if o.putLands then m.value.price else w.lastBid, o.now,
            if restart then 0 else s.decayStreak, if restart then None else s.decaySince)
  }

  function RunOf(w: Watch, obs: seq<Obs>, lane: Lane): Watch {
    if obs == [] then w else Tick(RunOf(w, obs[..|obs| - 1], lane), obs[|obs| - 1], lane)
  }

  /** The prices the run actually moved the bid to. */
  function Landed(w: Watch, obs: seq<Obs>, lane: Lane): seq<real>
    decreases |obs|
  {
    if obs == [] then []
    else
      var o := obs[0];
      (if MoveAt(w, o).Some? && o.putLands then [MoveAt(w, o).value.price] else [])
      + Landed(Tick(w, o, lane), obs[1..], lane)
  }

  ghost predicate SameMarket(o: Obs, floor: Option<real>, maxBid: Option<real>, onDemand: Option<real>) {
    o.present && o.statusLive && o.floor == floor && o.maxBid == maxBid && o.onDemand == onDemand
  }

  /** What a tick leaves behind: an issued PUT starts the rate limit whether or not it
      lands, moves the bid only if it does, and a decay starts the dwell afresh, in the
      jobs lane only if it landed. */
  lemma TickRecordsExactly(w: Watch, o: Obs, lane: Lane)
    ensures var m, next, dwell := MoveAt(w, o), Tick(w, o, lane), NextDecayState(StateOf(w, o));
            var restarts := m.Some? && m.value.LowerBid? && (o.putLands || lane == RunLane);
            && next.lastPutTs == (if m.Some? then o.now else w.lastPutTs)
            && next.lastBid == (if m.Some? && o.putLands then m.value.price else w.lastBid)
            && next.streak == (if restarts then 0 else dwell.streak)
            && next.since == (if restarts then None else dwell.since)
  {
    hide BidAction, NextDecayState;
  }

  /** Nothing stands in the way of a live box's defence on this tick. */
  predicate Unhindered(p: PollState) {
    && !p.terminal && !OperatorIntent(p) && !SpendTimeExceeded(p) && p.bid.present && p.bid.statusLive
  }

  /** After any run of either lane: a live, unhindered box whose floor has reached the line
      and whose target is a cent up is raised to the target on that very tick, and never
      before it; if the market takes the bid, that is the bid from then on. */
  lemma DefendedOnTheTick(w: Watch, obs: seq<Obs>, o: Obs, lane: Lane, p: PollState)
    requires p.bid == Decided(RunOf(w, obs, lane), o) && Unhindered(p)
    ensures var now := RunOf(w, obs, lane);
            var target := Target(o.floor, o.maxBid, o.onDemand);
            var pressed := target.Some? && o.now - now.lastPutTs >= 60.0 && target.value >= now.lastBid + 0.01
                           && o.floor.value >= (if o.defendAt.Some? then o.defendAt.value else 0.9) * now.lastBid;
            && (pressed <==> Poll(p).BidMove? && Poll(p).move.RaiseBid?)
            && (pressed ==> Poll(p) == BidMove(RaiseBid(target.value)))
            && (pressed && o.putLands ==> RunOf(w, obs + [o], lane).lastBid == target.value)
  {
    hide BidAction, NextDecayState, OperatorIntent, SpendTimeExceeded, Target, RunOf, Tick;
    LiveBoxMovesExactly(p.bid, p.bid.lastBid.value);
    TickRecordsExactly(RunOf(w, obs, lane), o, lane);
    RunSnoc(w, obs, o, lane);
  }

  lemma RunSnoc(w: Watch, obs: seq<Obs>, o: Obs, lane: Lane)
    ensures RunOf(w, obs + [o], lane) == Tick(RunOf(w, obs, lane), o, lane)
  {
    assert (obs + [o])[..|obs|] == obs;
  }

  /** On a live box and an unchanging market the bid settles: at most one move
      lands, and none once the bid stands at the target. */
  lemma {:induction false} ConstantMarketSettles(w: Watch, obs: seq<Obs>, lane: Lane,
                                                 floor: Option<real>, maxBid: Option<real>, onDemand: Option<real>)
    requires forall o :: o in obs ==> SameMarket(o, floor, maxBid, onDemand)
    ensures |Landed(w, obs, lane)| <= 1
    ensures Target(floor, maxBid, onDemand) == Some(w.lastBid) ==> Landed(w, obs, lane) == []
    decreases |obs|
  {
    hide Target, Tick, MoveAt;
    if obs != [] {
      assert obs[0] in obs;
      LiveMoveGoesToTarget(w, obs[0], lane);
      ConstantMarketSettles(Tick(w, obs[0], lane), obs[1..], lane, floor, maxBid, onDemand);
    }
  }

  lemma LiveMoveGoesToTarget(w: Watch, o: Obs, lane: Lane)
    requires o.present && o.statusLive
    ensures var t := Target(o.floor, o.maxBid, o.onDemand);
            && (MoveAt(w, o).Some? ==> Some(MoveAt(w, o).value.price) == t && MoveAt(w, o).value.price != w.lastBid)
            && Tick(w, o, lane).lastBid
               == if MoveAt(w, o).Some? && o.putLands then MoveAt(w, o).value.price else w.lastBid
  {
    hide Target, NotifyRescueBound, HoldOf, SeenPrices;
  }

  /** Every floor read is our own last bid, and nothing guards against it. */
  function Echoed(w: Watch, o: Obs): Obs { o.(present := true, statusLive := true, floor := Some(w.lastBid)) }

  function EchoRaises(w: Watch, obs: seq<Obs>, lane: Lane): seq<real>
    decreases |obs|
  {
    if obs == [] then []
    else
      var o := Echoed(w, obs[0]);
      (if MoveAt(w, o).Some? && o.putLands then [MoveAt(w, o).value.price] else [])
      + EchoRaises(Tick(w, o, lane), obs[1..], lane)
  }

  /** Even with the guard off the self-ratchet is finite: the bid only climbs, by
      a cent or more each time, and stops under the ceiling. */
  lemma {:induction false} EchoRatchetIsBounded(w: Watch, obs: seq<Obs>, lane: Lane, ceiling: real)
    requires w.lastBid <= ceiling
    requires forall o :: o in obs ==> EffectiveBidCeiling(o.onDemand, o.maxBid).Some?
                                      && EffectiveBidCeiling(o.onDemand, o.maxBid).value <= ceiling
    ensures var ps := EchoRaises(w, obs, lane);
            && Climbs(w.lastBid, ps)
            && |ps| as real * BID_MIN_STEP <= ceiling - w.lastBid
    decreases |obs|
  {
    hide Tick, MoveAt, EffectiveBidCeiling;
    if obs != [] {
      assert obs[0] in obs;
      var o := Echoed(w, obs[0]);
      EchoOnlyRaises(w, o, lane);
      EchoRatchetIsBounded(Tick(w, o, lane), obs[1..], lane, ceiling);
      var rest := EchoRaises(Tick(w, o, lane), obs[1..], lane);
      if MoveAt(w, o).Some? && o.putLands {
        assert ([MoveAt(w, o).value.price] + rest)[1..] == rest;
      } else {
        assert [] + rest == rest;
      }
    }
  }

  lemma EchoOnlyRaises(w: Watch, o: Obs, lane: Lane)
    requires o.present && o.statusLive && o.floor == Some(w.lastBid)
    ensures var m := MoveAt(w, o);
            && (m.Some? ==> m.value.RaiseBid? && m.value.price >= w.lastBid + BID_MIN_STEP
                            && AtMost(m.value.price, EffectiveBidCeiling(o.onDemand, o.maxBid)))
            && Tick(w, o, lane).lastBid == if m.Some? && o.putLands then m.value.price else w.lastBid
  {
    hide BidAction, NextDecayState, EffectiveBidCeiling;
    if MoveAt(w, o).Some? {
      MovesAreSafe(Decided(w, o));
    }
  }

  /** A live box whose every listing this past hour was its own bid read back
      never moves: not by defending, not by decaying. */
  lemma SelfEchoNeverMoves(trace: seq<SelfFloor.Held>, machine: string, i: nat, s: BidState,
                           market: Option<real>, rows: seq<real>, scaled: bool)
    requires i < |trace| && SelfFloor.Paced(trace[..i + 1]) && SelfFloor.Separated(trace[..i + 1]) && machine != ""
    requires SelfFloor.ListedRows(market, rows) != []
    requires forall f :: f in SelfFloor.ListedRows(market, rows) ==> SelfFloor.EchoOfLastHour(f, trace[..i + 1])
    requires Live(s) && s.now == trace[i].time
    requires s.marketMinBid == SelfFloor.GuardedFloor(market, rows, scaled, true, s.lastBid,
                                 SelfFloor.ForMachine(SelfFloor.HistoryOf(trace[..i + 1], machine), machine), s.now)
    ensures BidAction(s).None?
    ensures NextDecayState(s) == DecayStreak(0, None)
  {
    hide SelfFloor.GuardedFloor, SelfFloor.HistoryOf, SelfFloor.Paced, SelfFloor.Separated, SelfFloor.ForMachine,
         BidDecision, NotifyRescueBound;
    SelfFloor.EchoOnlyListingIsNoMarket(trace[..i + 1], machine, market, rows, scaled, s.lastBid);
    NoMarketNoPrice(s.maxBid, s.onDemand);
  }

  // ---- decay is earned over the trace --------------------------------------

  predicate CandidateAt(w: Watch, obs: seq<Obs>, lane: Lane, k: nat)
    requires k < |obs|
  {
    DecayCandidate(StateOf(RunOf(w, obs[..k], lane), obs[k]))
  }

  /** The recorded decay run started at tick `j`, and every tick since was a candidate. */
  ghost predicate CandidatesSince(w: Watch, obs: seq<Obs>, lane: Lane, j: nat) {
    j < |obs| && forall k :: j <= k < |obs| ==> CandidateAt(w, obs, lane, k)
  }

  ghost predicate StreakIsTrue(w: Watch, obs: seq<Obs>, lane: Lane) {
    var now := RunOf(w, obs, lane);
    now.streak == 0 || exists j: nat :: CandidatesSince(w, obs, lane, j) && now.since == Some(obs[j].now)
                                   && now.streak == |obs| - j
  }

  lemma CandidatesExtend(w: Watch, obs: seq<Obs>, o: Obs, lane: Lane, j: nat)
    requires CandidatesSince(w, obs, lane, j)
    requires DecayCandidate(StateOf(RunOf(w, obs, lane), o))
    ensures CandidatesSince(w, obs + [o], lane, j)
  {
    hide DecayCandidate, RunOf;
    var grown := obs + [o];
    forall k | j <= k < |grown| ensures CandidateAt(w, grown, lane, k) {
      if k < |obs| {
        assert grown[..k] == obs[..k] && CandidateAt(w, obs, lane, k);
      } else {
        assert grown[..k] == obs;
      }
    }
  }

  /** The dwell the decision reads is the true length of the current candidate run. */
  lemma DecidedStreakIsTrue(w: Watch, obs: seq<Obs>, o: Obs, lane: Lane)
    requires StreakIsTrue(w, obs, lane)
    ensures var s := Decided(RunOf(w, obs, lane), o);
            && (s.decayStreak > 0 <==> DecayCandidate(StateOf(RunOf(w, obs, lane), o)))
            && (s.decayStreak > 0 ==>
                  exists j: nat :: CandidatesSince(w, obs + [o], lane, j) && s.decaySince == Some((obs + [o])[j].now)
                              && s.decayStreak == |obs| + 1 - j)
  {
    hide DecayCandidate, RunOf, CandidateAt;
    var v := RunOf(w, obs, lane);
    var s := Decided(v, o);
    if DecayCandidate(StateOf(v, o)) {
      if v.streak == 0 {
        assert (obs + [o])[..|obs|] == obs;
        assert CandidatesSince(w, obs + [o], lane, |obs|) by {
          FirstCandidate(w, obs, o, lane);
        }
      } else {
        var j: nat :| CandidatesSince(w, obs, lane, j) && v.since == Some(obs[j].now) && v.streak == |obs| - j;
        CandidatesExtend(w, obs, o, lane, j);
      }
    }
  }

  lemma FirstCandidate(w: Watch, obs: seq<Obs>, o: Obs, lane: Lane)
    requires DecayCandidate(StateOf(RunOf(w, obs, lane), o))
    ensures CandidatesSince(w, obs + [o], lane, |obs|)
  {
    hide DecayCandidate, RunOf;
    assert (obs + [o])[..|obs|] == obs;
  }

  lemma {:induction false} StreaksAreTrue(w: Watch, obs: seq<Obs>, lane: Lane)
    requires w.streak == 0
    ensures StreakIsTrue(w, obs, lane)
  {
    hide DecayCandidate, CandidateAt, BidAction;
    if obs != [] {
      var n := |obs| - 1;
      StreaksAreTrue(w, obs[..n], lane);
      DecidedStreakIsTrue(w, obs[..n], obs[n], lane);
      assert obs[..n] + [obs[n]] == obs;
    }
  }

  /** A lowered bid was earned: it ends a run of decay candidates, one at every
      tick, that spans at least ninety seconds. */
  lemma DecayIsEarned(w: Watch, obs: seq<Obs>, o: Obs, lane: Lane) returns (j: nat)
    requires w.streak == 0
    requires MoveAt(RunOf(w, obs, lane), o).Some? && MoveAt(RunOf(w, obs, lane), o).value.LowerBid?
    ensures CandidatesSince(w, obs + [o], lane, j)
    ensures o.now - (obs + [o])[j].now >= BID_DECAY_S
  {
    hide DecayCandidate, RunOf, CandidateAt, NextDecayState, Target, RescueTarget, HoldOf, SeenPrices;
    StreaksAreTrue(w, obs, lane);
    DecidedStreakIsTrue(w, obs, o, lane);
    var s := Decided(RunOf(w, obs, lane), o);
    assert DecayDwellSatisfied(s);
    j :| CandidatesSince(w, obs + [o], lane, j) && s.decaySince == Some((obs + [o])[j].now);
  }

  predicate Uniform(obs: seq<Obs>) {
    forall k :: 0 < k < |obs| ==> obs[k].now == obs[0].now + k as real * NOMINAL_TICK_S
  }

  /** At the nominal tick the duration and the poll count fire on the same poll. */
  lemma CountAndDurationAgree(w: Watch, obs: seq<Obs>, o: Obs, lane: Lane)
    requires w.streak == 0 && Uniform(obs + [o])
    ensures var s := Decided(RunOf(w, obs, lane), o);
            DecayDwellSatisfied(s) <==> DecayDwellSatisfied(s.(decaySince := None))
  {
    hide DecayCandidate, RunOf, CandidateAt, NextDecayState;
    StreaksAreTrue(w, obs, lane);
    DecidedStreakIsTrue(w, obs, o, lane);
    var s := Decided(RunOf(w, obs, lane), o);
    var all := obs + [o];
    if s.decayStreak > 0 {
      var j: nat :| CandidatesSince(w, all, lane, j) && s.decaySince == Some(all[j].now) && s.decayStreak == |obs| + 1 - j;
      assert all[|obs|] == o;
      assert all[j].now == all[0].now + j as real * NOMINAL_TICK_S;
      assert all[|obs|].now == all[0].now + |obs| as real * NOMINAL_TICK_S;
    }
  }

  // ---- the handoff trigger --------------------------------------------------

  function PreferredCeiling(onDemand: Option<real>): Option<real> {
    if Known(onDemand).Some? then Some(Round3(BID_CEILING_ONDEMAND_FRAC * onDemand.value)) else None
  }

  predicate OverPreferred(s: BidState, strictCeiling: bool) {
    && !strictCeiling && Live(s) && s.lastBid.Some? && PreferredCeiling(s.onDemand).Some?
    && s.lastBid.value > PreferredCeiling(s.onDemand).value + BID_MIN_STEP
  }

  predicate HandoffTrigger(s: BidState, strictCeiling: bool) {
    OverPreferred(s, strictCeiling) && TargetOf(s).Some? && s.lastBid.value > TargetOf(s).value + BID_MIN_STEP
  }

  /** A handoff is asked for exactly when a live box's bid stands over a cent above three
      quarters of a known on-demand price, and over a cent above the target. */
  lemma HandoffTriggerExactly(s: BidState, strictCeiling: bool)
    ensures var target := Target(s.marketMinBid, s.maxBid, s.onDemand);
            HandoffTrigger(s, strictCeiling) <==>
              && !strictCeiling && s.present && s.statusLive
              && s.lastBid.Some? && s.onDemand.Some? && s.onDemand.value > 0.0 && target.Some?
              && s.lastBid.value > Round3(0.75 * s.onDemand.value) + 0.01
              && s.lastBid.value > target.value + 0.01
  {
    hide BidDecision, Round3;
  }

  /** On-demand is read at every tick and never falls. */
  predicate OnDemandHolds(obs: seq<Obs>) {
    && (forall k :: 0 <= k < |obs| ==> Known(obs[k].onDemand).Some?)
    && (forall i, k :: 0 <= i < k < |obs| ==> obs[i].onDemand.value <= obs[k].onDemand.value)
  }

  lemma PolicyBidsStayPreferred(w: Watch, obs: seq<Obs>, lane: Lane)
    requires obs != [] && OnDemandHolds(obs)
    requires w.lastBid <= PreferredCeiling(obs[0].onDemand).value
    ensures RunOf(w, obs, lane).lastBid <= PreferredCeiling(obs[|obs| - 1].onDemand).value
  {
    hide BidAction, NextDecayState, EffectiveBidCeiling, Round3;
    var n := |obs| - 1;
    var o := obs[n];
    var v := RunOf(w, obs[..n], lane);
    if n > 0 {
      PolicyBidsStayPreferred(w, obs[..n], lane);
      Round3Monotone(BID_CEILING_ONDEMAND_FRAC * obs[n - 1].onDemand.value,
                     BID_CEILING_ONDEMAND_FRAC * o.onDemand.value);
    }
    if MoveAt(v, o).Some? {
      MovesAreSafe(Decided(v, o));
      CeilingBelowOnDemand(o.onDemand.value, o.maxBid);
    }
  }

  /** Bids the policy placed can never arm a migration by themselves: with
      on-demand always read and never falling the trigger stays off for good. */
  lemma PolicyNeverArmsHandoff(w: Watch, obs: seq<Obs>, o: Obs, lane: Lane, strictCeiling: bool)
    requires OnDemandHolds(obs + [o])
    requires w.lastBid <= PreferredCeiling((obs + [o])[0].onDemand).value
    ensures !HandoffTrigger(StateOf(RunOf(w, obs, lane), o), strictCeiling)
  {
    hide RunOf, Round3, Target;
    if obs == [] {
      assert RunOf(w, obs, lane) == w by { EmptyRun(w, lane); }
    } else {
      assert forall k :: 0 <= k < |obs| ==> (obs + [o])[k] == obs[k];
      PolicyBidsStayPreferred(w, obs, lane);
      var last := (obs + [o])[|obs| - 1];
      assert (obs + [o])[|obs|] == o;
      Round3Monotone(BID_CEILING_ONDEMAND_FRAC * last.onDemand.value,
                     BID_CEILING_ONDEMAND_FRAC * o.onDemand.value);
    }
  }

  lemma EmptyRun(w: Watch, lane: Lane)
    ensures RunOf(w, [], lane) == w
  {
  }
}
