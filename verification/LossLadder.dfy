/** Whole runs of the run lane's loss handling: what it takes for a box to be replaced,
    and how a lasting loss is answered (tools/vast/bidpolicy.py, driven as in
    tools/vast/vastlib/supervise/run_lane.py and replacement.py). */
module LossLadder {
  import opened Money
  import opened BidRails
  import opened Rebid
  import opened BidLadder

  /** How a relaunch ends: nothing rented, a box rented or adopted and counted, or one
      adopted that an earlier life of the supervisor had counted already. */
  datatype Landing = NoLaunch | Launched | Adopted

  /** One tick's reads. `otherStatus`: some later event overrides an announced eviction;
      `suppressed`: a handoff keeps the ladder off the primary, or a rescue is still being
      waited for. */
  datatype LossTick = LossTick(p: PollState, otherStatus: bool, suppressed: bool, landing: Landing)

  /** What the lane carries between ticks. */
  datatype Loss = Loss(notLive: nat, evicted: bool, relaunches: nat)

  const Fresh := Loss(0, false, 0)

  function PollOf(l: Loss, t: LossTick): PollState {
    t.p.(notLiveStreak := if Live(t.p.bid) then 0 else l.notLive + 1,
         relaunchCount := l.relaunches, evicted := l.evicted && !t.otherStatus)
  }

  function Act(l: Loss, t: LossTick): PollAction { Poll(PollOf(l, t)) }

  function Next(l: Loss, t: LossTick): Loss {
    var q := PollOf(l, t);
    var kept := Loss(q.notLiveStreak, q.evicted, l.relaunches);
    if t.suppressed then kept
    else
      match Act(l, t)
      case EmitEvicted => kept.(evicted := true)
      case Relaunch =>
        (match t.landing
         case NoLaunch => kept
         case Launched => kept.(evicted := false, relaunches := l.relaunches + 1)
         case Adopted => kept.(evicted := false))
      case _ => kept
  }

  function After(l: Loss, ticks: seq<LossTick>): Loss {
    if ticks == [] then l else Next(After(l, ticks[..|ticks| - 1]), ticks[|ticks| - 1])
  }

  function ActIn(ticks: seq<LossTick>, k: nat): PollAction
    requires k < |ticks|
  {
    Act(After(Fresh, ticks[..k]), ticks[k])
  }

  /** Tick `j` announced the eviction, and no box has been taken since. */
  predicate AnnouncedAt(ticks: seq<LossTick>, j: nat) {
    && j < |ticks| && ActIn(ticks, j) == EmitEvicted && !ticks[j].suppressed
    && forall k :: j < k < |ticks| && ActIn(ticks, k) == Relaunch ==> ticks[k].suppressed || ticks[k].landing == NoLaunch
  }

  predicate Capped(ticks: seq<LossTick>, cap: nat) { forall k :: 0 <= k < |ticks| ==> ticks[k].p.maxRelaunch == cap }

  lemma SamePrefix(ticks: seq<LossTick>, t: LossTick)
    ensures After(Fresh, ticks + [t]) == Next(After(Fresh, ticks), t)
    ensures forall k: nat :: k < |ticks| ==> ActIn(ticks + [t], k) == ActIn(ticks, k)
    ensures ActIn(ticks + [t], |ticks|) == Act(After(Fresh, ticks), t)
  {
    hide Act, Next;
    assert (ticks + [t])[..|ticks|] == ticks;
    forall k: nat | k < |ticks| ensures ActIn(ticks + [t], k) == ActIn(ticks, k) {
      assert (ticks + [t])[..k] == ticks[..k];
    }
  }

  ghost predicate Sound(ticks: seq<LossTick>, cap: nat) {
    var l := After(Fresh, ticks);
    && l.relaunches <= cap
    && (l.evicted ==> exists j :: AnnouncedAt(ticks, j))
    && (l.notLive > 0 <==> ticks != [] && !Live(ticks[|ticks| - 1].p.bid))
  }

  lemma StepIsSound(ticks: seq<LossTick>, t: LossTick, cap: nat)
    requires Sound(ticks, cap) && t.p.maxRelaunch == cap
    ensures Sound(ticks + [t], cap)
  {
    hide Poll, Live, ActIn, After;
    var l, more := After(Fresh, ticks), ticks + [t];
    SamePrefix(ticks, t);
    if Act(l, t) == Relaunch {
      SpendingIsGuarded(PollOf(l, t));
    }
    var l' := Next(l, t);
    if l'.evicted {
      if Act(l, t) == EmitEvicted && !t.suppressed {
        assert AnnouncedAt(more, |ticks|);
      } else {
        var j :| AnnouncedAt(ticks, j);
        assert AnnouncedAt(more, j);
      }
    }
  }

  lemma {:induction false} RunIsSound(ticks: seq<LossTick>, cap: nat)
    requires Capped(ticks, cap)
    ensures Sound(ticks, cap)
  {
    hide Next, Live;
    if ticks != [] {
      var n := |ticks| - 1;
      RunIsSound(ticks[..n], cap);
      assert ticks == ticks[..n] + [ticks[n]];
      StepIsSound(ticks[..n], ticks[n], cap);
    }
  }

  /** No bid the box can win back is left, at this tick. */
  predicate Unwinnable(b: BidState) {
    b.present && !b.rescueAttempted && b.lastBid.Some? && b.now - b.lastPutTs >= BID_RATE_LIMIT_S
    ==> AtMostBid(RescueTarget(b), b.lastBid.value)
  }

  /** Over any run a relaunch is the last resort: the box was seen not live twice
      running, its loss was announced by an earlier tick and no box taken since, no legal
      bid would win it back, nobody stopped the run, no cap is spent, and the relaunches
      so far are under their own; which over any run they never exceed. */
  lemma RelaunchIsTheLastResort(ticks: seq<LossTick>, t: LossTick, cap: nat)
    requires Capped(ticks + [t], cap)
    ensures After(Fresh, ticks).relaunches <= cap
    ensures Act(After(Fresh, ticks), t) == Relaunch ==>
              && !Live(t.p.bid) && ticks != [] && !Live(ticks[|ticks| - 1].p.bid)
              && (exists j :: AnnouncedAt(ticks, j))
              && Unwinnable(t.p.bid)
              && !t.p.terminal && !OperatorIntent(t.p) && !SpendTimeExceeded(t.p)
              && After(Fresh, ticks).relaunches < cap
  {
    hide Live, After, RescueTarget, BidAction;
    var l := After(Fresh, ticks);
    assert Capped(ticks, cap) by {
      assert forall k :: 0 <= k < |ticks| ==> (ticks + [t])[k] == ticks[k];
    }
    assert (ticks + [t])[|ticks|] == t;
    RunIsSound(ticks, cap);
    if Act(l, t) == Relaunch {
      SpendingIsGuarded(PollOf(l, t));
    }
  }

  /** A loss nothing interrupts: not live, not winnable, not stopped, not paid out. */
  predicate Lasting(t: LossTick, cap: nat) {
    && t.p.maxRelaunch == cap && !t.otherStatus && !t.suppressed
    && !t.p.terminal && !OperatorIntent(t.p) && !SpendTimeExceeded(t.p)
    && !Live(t.p.bid) && Unwinnable(t.p.bid)
  }

  lemma SameGuards(l: Loss, t: LossTick)
    ensures var q := PollOf(l, t);
            && OperatorIntent(q) == OperatorIntent(t.p) && SpendTimeExceeded(q) == SpendTimeExceeded(t.p)
  {
  }

  lemma LastingTick(l: Loss, t: LossTick, cap: nat)
    requires Lasting(t, cap) && l.relaunches < cap
    ensures Act(l, t) ==
            if l.notLive == 0 then PollAction.Noop
            else if !l.evicted then EmitEvicted
            else if t.p.backoffReady then Relaunch else PollAction.Noop
    ensures Act(l, t) != Relaunch ==> Next(l, t) == Loss(l.notLive + 1, l.evicted || l.notLive > 0, l.relaunches)
  {
    SameGuards(l, t);
    hide RescueTarget, OperatorIntent, SpendTimeExceeded, BidAction;
    if l.notLive > 0 {
      LossIsAnswered(PollOf(l, t));
    }
  }

  /** And a lasting loss runs its course, however long the back-off: one tick to be sure,
      one to announce it, none in vain, and the first tick after the back-off relaunches. */
  lemma {:induction false} LossRunsItsCourse(l: Loss, first: LossTick, second: LossTick,
                                             waiting: seq<LossTick>, ready: LossTick, cap: nat)
    requires l.notLive == 0 && !l.evicted && l.relaunches < cap
    requires Lasting(first, cap) && Lasting(second, cap) && Lasting(ready, cap) && ready.p.backoffReady
    requires forall k :: 0 <= k < |waiting| ==> Lasting(waiting[k], cap) && !waiting[k].p.backoffReady
    ensures var l1 := Next(l, first);
            var l2 := Next(l1, second);
            && Act(l, first) == PollAction.Noop
            && Act(l1, second) == EmitEvicted
            && (waiting != [] ==> Act(After(l2, waiting[..|waiting| - 1]), waiting[|waiting| - 1]) == PollAction.Noop)
            && After(l2, waiting) == Loss(|waiting| + 2, true, l.relaunches)
            && Act(After(l2, waiting), ready) == Relaunch
  {
    hide Lasting, Act, Next;
    LastingTick(l, first, cap);
    LastingTick(Next(l, first), second, cap);
    var l2 := Next(Next(l, first), second);
    if waiting != [] {
      var n := |waiting| - 1;
      LossRunsItsCourse(l, first, second, waiting[..n], ready, cap);
      LastingTick(After(l2, waiting[..n]), waiting[n], cap);
    }
    LastingTick(After(l2, waiting), ready, cap);
  }
}
