/** The migration machine's decision: one action per tick
    (tools/vast/bidpolicy.py). */
module HandoffCore {
  import opened Money
  import opened BidRails

  const NOMINAL_TICK_S := 45.0
  const HANDOFF_DWELL_S := 4.0 * NOMINAL_TICK_S
  const HANDOFF_DWELL_POLLS := 5
  const HANDOFF_DEADLINE_S := 1800.0
  const HANDOFF_DRAIN_DEADLINE_S := 1800.0
  const HANDOFF_FENCE_TIMEOUT_S := 900.0
  const HANDOFF_FENCE_UNWIND_S := HANDOFF_DEADLINE_S
  const HANDOFF_COOLDOWN_S := 1800.0
  const HANDOFF_MAX := 2
  const HANDOFF_WINDOW_H := 0.5
  const HANDOFF_FENCE_HOLD_ETA_S := 1200.0

  datatype Phase = Idle | Armed | Launching | Warming | Synced | Cutover | Draining

  predicate PreCutover(p: Phase) { p.Armed? || p.Launching? || p.Warming? || p.Synced? }

  predicate FenceOpen(p: Phase) { p.Cutover? || p.Draining? }

  /** The understudy's last reported status, if it was ever listed. */
  datatype Status = Unseen | SeenLive | SeenDead

  /** What the migration would move and what moving it would cost. */
  datatype Economics = Economics(
    primaryDph: Option<real>, primaryOnDemand: Option<real>,
    candidateMinBid: Option<real>, candidateOnDemand: Option<real>,
    remainingWallH: Option<real>, workAtRiskH: real, budget: Option<real>, spend: real)

  /** What the primary is running. */
  datatype Work = Work(driverCanComplete: bool, runningUnresumable: int, minRunningEtaS: Option<real>,
                       ckptStale: bool, unsafeOverride: bool)

  datatype View = View(
    phase: Phase, now: real, overCeilingStreak: nat, overCeilingSince: Option<real>,
    handoffsDone: nat, cooldownUntil: real,
    primaryEvicted: bool, primaryGone: bool,
    status: Status, understudyGone: bool, understudyProducing: bool,
    ckptPulled: bool, finalFlushSeen: bool,
    startedTs: Option<real>, fenceTs: Option<real>, drainTs: Option<real>,
    money: Economics, work: Work)

  datatype Resume = FastCutover | FlushTimeout | PostFlush

  datatype Abort = PrimaryEvicted | Deadline | UnderstudyDied | DrainDeadline | FenceUnwind

  datatype Action =
    | Noop
    | Arm
    | LaunchUnderstudy
    | WarmWait
    | MarkSynced
    | FencePrimary
    | ResumeUnderstudy(how: Resume)
    | DrainPrimary
    | Complete
    | AbortReap(why: Abort)
    | AbortUnfence(why: Abort)

  predicate Elapsed(since: Option<real>, now: real, limit: real) { since.Some? && now - since.value >= limit }

  function CandidateTarget(e: Economics): Option<real> { Target(e.candidateMinBid, None, e.candidateOnDemand) }

  predicate HeadroomOk(e: Economics) {
    var target := CandidateTarget(e);
    && target.Some? && e.primaryDph.Some?
    && (e.budget.Some? ==>
          e.budget.value - e.spend > (e.primaryDph.value + target.value) * HANDOFF_WINDOW_H)
  }

  predicate CandidateOk(e: Economics) {
    && e.primaryDph.Some? && e.candidateMinBid.Some? && e.candidateOnDemand.Some?
    && e.primaryOnDemand.Some? && e.remainingWallH.Some?
    && var target := CandidateTarget(e);
       && target.Some? && e.primaryOnDemand.value > 0.0
       && target.value <= Round3(BID_CEILING_ONDEMAND_FRAC * e.primaryOnDemand.value)
       && (e.primaryDph.value - target.value) * e.remainingWallH.value
          > (e.primaryDph.value + target.value) * HANDOFF_WINDOW_H + e.primaryDph.value * e.workAtRiskH
  }

  predicate DwellSatisfied(v: View) {
    v.overCeilingStreak > 0
    && if v.overCeilingSince.Some? then v.now - v.overCeilingSince.value >= HANDOFF_DWELL_S
       else v.overCeilingStreak >= HANDOFF_DWELL_POLLS
  }

  predicate ArmRefused(w: Work) {
    !w.unsafeOverride && (!w.driverCanComplete || w.runningUnresumable > 0)
  }

  predicate FenceHeld(w: Work) {
    || w.runningUnresumable > 0
    || (w.minRunningEtaS.Some? && w.minRunningEtaS.value < HANDOFF_FENCE_HOLD_ETA_S)
    || w.ckptStale
  }

  predicate UnderstudyDead(v: View) { v.understudyGone || v.status == SeenDead }

  function HandoffPoll(v: View): Action {
    if v.primaryEvicted && PreCutover(v.phase) then
      if v.phase == Synced then ResumeUnderstudy(FastCutover) else AbortReap(PrimaryEvicted)
    else if PreCutover(v.phase) && Elapsed(v.startedTs, v.now, HANDOFF_DEADLINE_S) then AbortReap(Deadline)
    else if v.phase == Draining && !v.understudyProducing
            && (UnderstudyDead(v) || Elapsed(v.drainTs, v.now, HANDOFF_DRAIN_DEADLINE_S)) then
      var why := if UnderstudyDead(v) then UnderstudyDied else DrainDeadline;
      if v.primaryGone then AbortReap(why) else AbortUnfence(why)
    else if v.phase == Cutover && Elapsed(v.fenceTs, v.now, HANDOFF_FENCE_UNWIND_S) then AbortUnfence(FenceUnwind)
    else
      match v.phase
      case Idle =>
        if v.now < v.cooldownUntil || v.handoffsDone >= HANDOFF_MAX || !DwellSatisfied(v)
           || ArmRefused(v.work) || !HeadroomOk(v.money) || !CandidateOk(v.money)
        then Noop else Arm
      case Armed => LaunchUnderstudy
      case Launching => if v.ckptPulled then MarkSynced else WarmWait
      case Warming => if v.ckptPulled then MarkSynced else WarmWait
      case Synced => if FenceHeld(v.work) then Noop else FencePrimary
      case Cutover =>
        if v.finalFlushSeen then ResumeUnderstudy(PostFlush)
        else if Elapsed(v.fenceTs, v.now, HANDOFF_FENCE_TIMEOUT_S) then ResumeUnderstudy(FlushTimeout)
        else Noop
      case Draining =>
        if !v.understudyProducing then Noop
        else if !v.primaryGone then DrainPrimary
        else Complete
  }

  /** Which phase each action comes from, and which deadlines have not passed when
      it does: an elapsed one leaves only the ways out. */
  lemma PollTiming(v: View)
    ensures var a := HandoffPoll(v);
            match a
            case Arm => v.phase == Idle
            case LaunchUnderstudy => v.phase == Armed
            case WarmWait => v.phase.Launching? || v.phase.Warming?
            case MarkSynced => v.phase.Launching? || v.phase.Warming?
            case FencePrimary => v.phase == Synced
            case ResumeUnderstudy(how) =>
              if how == FastCutover then v.phase == Synced && v.primaryEvicted else v.phase == Cutover
            case DrainPrimary => v.phase == Draining && v.understudyProducing && !v.primaryGone
            case Complete => v.phase == Draining && v.understudyProducing && v.primaryGone
            case AbortReap(_) => PreCutover(v.phase) || (v.phase == Draining && !v.understudyProducing)
            case AbortUnfence(why) =>
              if why == FenceUnwind then v.phase == Cutover && Elapsed(v.fenceTs, v.now, HANDOFF_FENCE_UNWIND_S)
              else v.phase == Draining && !v.understudyProducing && !v.primaryGone
            case Noop => v.phase.Idle? || v.phase.Synced? || FenceOpen(v.phase)
    ensures var a := HandoffPoll(v);
            && (PreCutover(v.phase) && Elapsed(v.startedTs, v.now, HANDOFF_DEADLINE_S)
                ==> a.AbortReap? || a == ResumeUnderstudy(FastCutover))
            && (v.phase == Cutover && Elapsed(v.fenceTs, v.now, HANDOFF_FENCE_TIMEOUT_S)
                ==> a.ResumeUnderstudy? || a.AbortUnfence?)
            && (v.phase == Cutover && Elapsed(v.fenceTs, v.now, HANDOFF_FENCE_UNWIND_S) ==> a.AbortUnfence?)
            && (v.phase == Draining && !v.understudyProducing
                && (UnderstudyDead(v) || Elapsed(v.drainTs, v.now, HANDOFF_DRAIN_DEADLINE_S))
                <==> v.phase == Draining && (a.AbortReap? || a.AbortUnfence?))
            && (v.phase == Draining && v.understudyProducing
                ==> a == if v.primaryGone then Complete else DrainPrimary)
  {
    hide HeadroomOk, CandidateOk, DwellSatisfied, ArmRefused, FenceHeld;
  }

  // ---- the answer of each phase ------------------------------------------------

  predicate Late(since: Option<real>, now: real, limit: real) { since.Some? && now - since.value >= limit }

  lemma ArmedAnswers(v: View)
    requires v.phase == Armed
    ensures HandoffPoll(v) == if v.primaryEvicted then AbortReap(PrimaryEvicted)
                              else if Late(v.startedTs, v.now, 1800.0) then AbortReap(Deadline)
                              else LaunchUnderstudy
  {
    hide HeadroomOk, CandidateOk, DwellSatisfied, ArmRefused, FenceHeld;
  }

  lemma BootingAnswers(v: View)
    requires v.phase.Launching? || v.phase.Warming?
    ensures HandoffPoll(v) == if v.primaryEvicted then AbortReap(PrimaryEvicted)
                              else if Late(v.startedTs, v.now, 1800.0) then AbortReap(Deadline)
                              else if v.ckptPulled then MarkSynced else WarmWait
  {
    hide HeadroomOk, CandidateOk, DwellSatisfied, ArmRefused, FenceHeld;
  }

  lemma SyncedAnswers(v: View)
    requires v.phase == Synced
    ensures HandoffPoll(v) == if v.primaryEvicted then ResumeUnderstudy(FastCutover)
                              else if Late(v.startedTs, v.now, 1800.0) then AbortReap(Deadline)
                              else if v.work.runningUnresumable > 0 || v.work.ckptStale
                                      || (v.work.minRunningEtaS.Some? && v.work.minRunningEtaS.value < 1200.0) then Noop
                              else FencePrimary
  {
    hide HeadroomOk, CandidateOk, DwellSatisfied, ArmRefused;
  }

  lemma CutoverAnswers(v: View)
    requires v.phase == Cutover
    ensures HandoffPoll(v) == if Late(v.fenceTs, v.now, 1800.0) then AbortUnfence(FenceUnwind)
                              else if v.finalFlushSeen then ResumeUnderstudy(PostFlush)
                              else if Late(v.fenceTs, v.now, 900.0) then ResumeUnderstudy(FlushTimeout)
                              else Noop
  {
    hide HeadroomOk, CandidateOk, DwellSatisfied, ArmRefused, FenceHeld;
  }

  lemma DrainingAnswers(v: View)
    requires v.phase == Draining
    ensures var down := v.understudyGone || v.status == SeenDead;
            var why := if down then UnderstudyDied else DrainDeadline;
            HandoffPoll(v) == if v.understudyProducing then if v.primaryGone then Complete else DrainPrimary
                              else if down || Late(v.drainTs, v.now, 1800.0) then
                                if v.primaryGone then AbortReap(why) else AbortUnfence(why)
                              else Noop
  {
    hide HeadroomOk, CandidateOk, DwellSatisfied, ArmRefused, FenceHeld;
  }

  /** Moving is affordable and pays, in figures. */
  predicate Pays(e: Economics) {
    var target := Target(e.candidateMinBid, None, e.candidateOnDemand);
    && target.Some? && e.primaryDph.Some? && e.candidateMinBid.Some? && e.candidateOnDemand.Some?
    && e.primaryOnDemand.Some? && e.primaryOnDemand.value > 0.0 && e.remainingWallH.Some?
    && target.value <= Round3(0.75 * e.primaryOnDemand.value)
    && (e.primaryDph.value - target.value) * e.remainingWallH.value
       > (e.primaryDph.value + target.value) * 0.5 + e.primaryDph.value * e.workAtRiskH
    && (e.budget.Some? ==> e.budget.value - e.spend > (e.primaryDph.value + target.value) * 0.5)
  }

  lemma PaysExactly(e: Economics)
    ensures HeadroomOk(e) && CandidateOk(e) <==> Pays(e)
  {
    hide BidDecision, Round3;
  }

  lemma IdleAnswers(v: View)
    requires v.phase == Idle
    ensures HandoffPoll(v) ==
            if && v.cooldownUntil <= v.now && v.handoffsDone < 2
               && v.overCeilingStreak > 0
               && (if v.overCeilingSince.Some? then v.now - v.overCeilingSince.value >= 180.0 else v.overCeilingStreak >= 5)
               && (v.work.unsafeOverride || (v.work.driverCanComplete && v.work.runningUnresumable <= 0))
               && Pays(v.money)
            then Arm else Noop
  {
    PaysExactly(v.money);
    hide HeadroomOk, CandidateOk, Pays;
  }

  // ---- what arming and fencing promise --------------------------------------

  lemma MigrationPays(p: real, t: real, hours: real, atRisk: real)
    requires p > 0.0 && t > 0.0 && hours >= 0.0 && atRisk >= 0.0
    requires (p - t) * hours > (p + t) * HANDOFF_WINDOW_H + p * atRisk
    ensures t < p && hours > HANDOFF_WINDOW_H
    ensures p * hours > t * hours + (p + t) * HANDOFF_WINDOW_H + p * atRisk
  {
    assert p * atRisk >= 0.0;
    assert p <= t ==> (p - t) * hours <= 0.0;
    assert p > t && hours <= HANDOFF_WINDOW_H ==> (p - t) * hours <= (p - t) * HANDOFF_WINDOW_H;
  }

  /** A migration is armed only onto a bid strictly cheaper than the box it leaves
      and under the line being escaped, with more than the two-box window left to
      run, when staying costs strictly more than moving, the window and the work
      at risk included, and inside the budget; nothing unresumable is running
      unless the operator overrode that by name. */
  lemma ArmIsSound(v: View)
    requires HandoffPoll(v) == Arm
    requires v.money.primaryDph.Some? ==> v.money.primaryDph.value > 0.0
    requires v.money.candidateMinBid.Some? ==> v.money.candidateMinBid.value > 0.0
    requires v.money.remainingWallH.Some? ==> v.money.remainingWallH.value >= 0.0
    requires v.money.workAtRiskH >= 0.0
    ensures CandidateTarget(v.money).Some? && v.money.primaryDph.Some? && v.money.remainingWallH.Some?
    ensures var e := v.money;
            var target, stay, hours := CandidateTarget(e).value, e.primaryDph.value, e.remainingWallH.value;
            && target < stay && hours > HANDOFF_WINDOW_H
            && stay * hours > target * hours + (stay + target) * HANDOFF_WINDOW_H + stay * e.workAtRiskH
            && Some(target) == Target(e.candidateMinBid, None, e.candidateOnDemand)
            && target <= Round3(BID_CEILING_ONDEMAND_FRAC * e.primaryOnDemand.value)
            && (e.budget.Some? ==> e.budget.value - e.spend > (stay + target) * HANDOFF_WINDOW_H)
    ensures v.work.unsafeOverride || (v.work.driverCanComplete && v.work.runningUnresumable <= 0)
    ensures v.phase == Idle && v.handoffsDone < HANDOFF_MAX && v.cooldownUntil <= v.now
  {
    hide BidDecision, Round3;
    var e := v.money;
    EmittedBidIsSafe(e.candidateMinBid.value, None, e.candidateOnDemand);
    MigrationPays(e.primaryDph.value, CandidateTarget(e).value, e.remainingWallH.value, e.workAtRiskH);
  }

  /** The fence never opens over work that cannot come back, whatever the override:
      nothing unresumable is running, nothing is about to finish, no checkpoint is
      stale; and the primary is destroyed only while the understudy is producing. */
  lemma IrreversibleStepsAreGuarded(v: View)
    ensures HandoffPoll(v) == FencePrimary ==>
              && v.phase == Synced && v.work.runningUnresumable <= 0 && !v.work.ckptStale
              && (v.work.minRunningEtaS.Some? ==> v.work.minRunningEtaS.value >= HANDOFF_FENCE_HOLD_ETA_S)
              && !v.primaryEvicted
    ensures HandoffPoll(v) == DrainPrimary ==> v.understudyProducing && !v.primaryGone
    ensures HandoffPoll(v) == Complete ==> v.understudyProducing && v.primaryGone
    ensures HandoffPoll(v).ResumeUnderstudy? ==>
              || (v.phase == Synced && v.primaryEvicted)
              || (v.phase == Cutover && (v.finalFlushSeen || Elapsed(v.fenceTs, v.now, HANDOFF_FENCE_TIMEOUT_S)))
  {
    hide HeadroomOk, CandidateOk;
  }
}
