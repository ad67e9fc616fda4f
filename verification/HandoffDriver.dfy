/** Both lanes' drivers around the migration machine, the two boxes they act on,
    and what every run of them keeps
    (tools/vast/vastlib/supervise/handoff.py). */
module HandoffDriver {
  import opened Money
  import opened HandoffCore

  datatype Lane = RunLane | JobsLane

  // ---- the driver's persisted sub-state -------------------------------------

  datatype Hf = Hf(phase: Phase, startedTs: Option<real>, fenceTs: Option<real>, drainTs: Option<real>,
                   flushSeen: bool, producing: bool, primaryGone: bool,
                   status: Status, understudyGone: bool, launched: bool, ckptPulled: bool,
                   retargetIncomplete: bool, handoffsDone: nat, cooldownUntil: real)

  function Reset(handoffsDone: nat, cooldownUntil: real): Hf {
    Hf(Idle, None, None, None, false, false, false, Unseen, false, false, false, false, handoffsDone, cooldownUntil)
  }

  /** The two boxes. A box writes when it is on and holds the claim: in the run
      lane the primary's claim is never revoked and promotion gives the understudy
      one; in the jobs lane the claim is holding a ticket. */
  datatype Boxes = Boxes(primaryHere: bool, primaryOn: bool, primaryPinned: bool, primaryClaims: bool,
                         understudyHere: bool, understudyOn: bool, understudyClaims: bool)

  predicate TwoWriters(b: Boxes) {
    b.primaryOn && b.primaryClaims && b.understudyOn && b.understudyClaims
  }

  datatype Sighting = NotListed(listingEmpty: bool) | Listed(live: bool, synced: bool)

  datatype Launch = Launched | NoCandidate | PutFailed

  /** One tick: what is read, and how each request made in it is answered. */
  datatype Tick = Tick(
    now: real, sighting: Sighting, primaryEvicted: bool, flushSignal: bool, producingSignal: bool,
    overCeilingStreak: nat, overCeilingSince: Option<real>, money: Economics, work: Work,
    launch: Launch, parkOk: bool, pinOk: bool, claimLeft: bool, retargetStuck: bool, retargetBackOk: bool,
    bidKnown: bool, bidOk: bool, resumeOk: bool, reapOk: bool, drainOk: bool)

  function Observe(lane: Lane, h: Hf, t: Tick): Hf {
    var seen :=
      match t.sighting
      case NotListed(empty) =>
        if lane == JobsLane && h.launched && !empty then h.(understudyGone := true, status := Unseen) else h
      case Listed(live, synced) =>
        h.(understudyGone := false, launched := true,
           status := if live then SeenLive else SeenDead,
           ckptPulled := h.ckptPulled || (live && synced && (h.phase.Launching? || h.phase.Warming?)));
    if FenceOpen(h.phase) then
      seen.(flushSeen := seen.flushSeen || t.flushSignal, producing := seen.producing || t.producingSignal)
    else seen
  }

  /** The jobs lane hides proof of life while an old ticket could not be deleted. */
  function ViewOf(lane: Lane, h: Hf, t: Tick): View {
    View(h.phase, t.now, t.overCeilingStreak, t.overCeilingSince, h.handoffsDone, h.cooldownUntil,
         t.primaryEvicted, h.primaryGone, h.status, h.understudyGone,
         h.producing && !(lane == JobsLane && h.retargetIncomplete),
         h.ckptPulled, h.flushSeen, h.startedTs, h.fenceTs, h.drainTs, t.money, t.work)
  }

  function ActionAt(lane: Lane, h: Hf, t: Tick): Action { HandoffPoll(ViewOf(lane, Observe(lane, h, t), t)) }

  // ---- the effects ----------------------------------------------------------

  /** `mid` is the world between giving the primary back and reaping the understudy. */
  datatype Effect = Effect(h: Hf, mid: Boxes, post: Boxes)

  function Reaped(b: Boxes, t: Tick): Boxes {
    if t.reapOk then b.(understudyHere := false, understudyOn := false, understudyClaims := false) else b
  }

  function Aborted(h: Hf, t: Tick): (r: Hf)
    ensures r.phase == Idle && r.drainTs.None? && !r.producing
  {
    Reset(h.handoffsDone, t.now + HANDOFF_COOLDOWN_S)
  }

  function Fenced(b: Boxes, t: Tick): Boxes {
    b.(primaryOn := b.primaryOn && !t.parkOk, primaryPinned := b.primaryPinned || t.pinOk)
  }

  predicate CutoverStuck(lane: Lane, how: Resume, t: Tick) {
    lane == JobsLane && t.retargetStuck && how != FastCutover
  }

  function ResumedHf(lane: Lane, h: Hf, how: Resume, t: Tick): Hf {
    if CutoverStuck(lane, how, t) then h.(retargetIncomplete := true)
    else
      h.(phase := Draining, primaryGone := h.primaryGone || how == FastCutover,
         drainTs := if lane == RunLane then Some(t.now) else h.drainTs)
  }

  function ResumedBoxes(lane: Lane, b: Boxes, how: Resume, t: Tick): Boxes {
    match lane
    case RunLane => b.(understudyClaims := true)
    case JobsLane =>
      b.(understudyClaims := true,
         primaryClaims := b.primaryClaims && (t.claimLeft || CutoverStuck(lane, how, t)),
         primaryPinned := b.primaryPinned || (how == FastCutover && t.pinOk))
  }

  function MovedBack(lane: Lane, b: Boxes, t: Tick): Boxes {
    if lane == JobsLane && t.retargetBackOk then b.(understudyClaims := false, primaryClaims := true) else b
  }

  function Unfenced(b: Boxes, t: Tick): Boxes {
    if !b.primaryHere || !t.bidKnown then b
    else b.(primaryOn := b.primaryOn || t.resumeOk, primaryPinned := b.primaryPinned && !t.bidOk)
  }

  /** Done: the understudy becomes the tracked box. */
  function Promoted(b: Boxes): Boxes {
    Boxes(b.understudyHere, b.understudyOn, false, true, false, false, false)
  }

  function Execute(lane: Lane, h: Hf, b: Boxes, a: Action, t: Tick): Effect {
    match a
    case Noop => Effect(h, b, b)
    case WarmWait => Effect(h, b, b)
    case Arm => Effect(h.(phase := Armed, startedTs := Some(t.now)), b, b)
    case LaunchUnderstudy =>
      if t.launch == Launched then
        Effect(h.(phase := Launching, launched := true), b, b.(understudyHere := true, understudyOn := true))
      else if t.launch == PutFailed && lane == RunLane then Effect(h, b, b)
      else Effect(Aborted(h, t), b, Reaped(b, t))
    case MarkSynced => Effect(h.(phase := Synced), b, b)
    case FencePrimary => Effect(h.(phase := Cutover, fenceTs := Some(t.now)), b, Fenced(b, t))
    case ResumeUnderstudy(how) => Effect(ResumedHf(lane, h, how, t), b, ResumedBoxes(lane, b, how, t))
    case DrainPrimary =>
      if (lane == JobsLane && h.retargetIncomplete) || !t.drainOk then Effect(h, b, b)
      else Effect(h.(primaryGone := true), b, b.(primaryHere := false, primaryOn := false))
    case Complete => Effect(Reset(h.handoffsDone + 1, t.now + HANDOFF_COOLDOWN_S), b, Promoted(b))
    case AbortReap(_) => Effect(Aborted(h, t), b, Reaped(b, t))
    case AbortUnfence(_) =>
      var given := Unfenced(MovedBack(lane, b, t), t);
      Effect(Aborted(h, t), given, Reaped(given, t))
  }

  function TickEffect(lane: Lane, h: Hf, b: Boxes, t: Tick): Effect {
    Execute(lane, Observe(lane, h, t), b, ActionAt(lane, h, t), t)
  }

  // ---- one writer -----------------------------------------------------------

  /** With the fence open a primary that still holds a claim is off and cannot be
      switched on; an understudy holds a claim only past the cutover, or stuck in
      an incomplete one. */
  predicate Fence(lane: Lane, h: Hf, b: Boxes) {
    && (FenceOpen(h.phase) && b.primaryClaims ==> !b.primaryOn && (b.primaryPinned || !b.primaryHere))
    && (b.understudyClaims ==>
          h.phase == Draining || (h.phase == Cutover && lane == JobsLane && h.retargetIncomplete))
    && (b.understudyClaims || b.understudyOn ==> b.understudyHere)
    && (!h.phase.Idle? && !h.phase.Armed? ==> b.understudyHere)
    && (b.primaryOn ==> b.primaryHere)
    && (lane == RunLane ==> b.primaryClaims)
  }

  /** What the tick reads about the boxes is true when it reads it. */
  predicate Honest(b: Boxes, t: Tick) {
    && (t.primaryEvicted ==> !b.primaryOn)
    && (t.sighting.Listed? ==> b.understudyHere && t.sighting.live == b.understudyOn)
  }

  /** The ways one tick can break the single-writer discipline, each named by the
      branch taken and by how a request was answered. */
  predicate Hazard(lane: Lane, b: Boxes, a: Action, t: Tick) {
    match a
    case FencePrimary =>
      // the park was refused, or the pin was refused on a box that may be resumed
      b.primaryClaims && ((b.primaryOn && !t.parkOk) || (b.primaryHere && !b.primaryPinned && !t.pinOk))
    case ResumeUnderstudy(FastCutover) =>
      // the lost primary is still listed, keeps its claim and is not pinned
      b.primaryHere && !b.primaryPinned && (if lane == RunLane then true else b.primaryClaims && t.claimLeft && !t.pinOk)
    case AbortReap(_) => b.understudyClaims && !t.reapOk
    case AbortUnfence(_) =>
      // the understudy keeps its claim, and cannot be reaped or is still on when the
      // primary, given back first, is on too
      && b.understudyClaims && !(lane == JobsLane && t.retargetBackOk)
      && (!t.reapOk
          || (b.understudyOn && b.primaryClaims && (b.primaryOn || (b.primaryHere && t.bidKnown && t.resumeOk))))
    case _ => false
  }

  lemma FencedIsOneWriter(lane: Lane, h: Hf, b: Boxes)
    requires Fence(lane, h, b)
    ensures !TwoWriters(b)
  {
  }

  /** `a` taken by a driver in state `h` is no hazard exactly when it keeps the fence. */
  ghost predicate Exact(lane: Lane, h: Hf, b: Boxes, a: Action, t: Tick) {
    var e := Execute(lane, h, b, a, t);
    (Fence(lane, e.h, e.post) && !TwoWriters(e.mid)) <==> !Hazard(lane, b, a, t)
  }

  lemma FencingExact(lane: Lane, h: Hf, b: Boxes, t: Tick)
    requires Fence(lane, h, b) && h.phase == Synced
    ensures Exact(lane, h, b, FencePrimary, t)
  {
  }

  lemma ResumingExact(lane: Lane, h: Hf, b: Boxes, how: Resume, t: Tick)
    requires Fence(lane, h, b)
    requires if how == FastCutover then h.phase == Synced && !b.primaryOn else h.phase == Cutover
    ensures Exact(lane, h, b, ResumeUnderstudy(how), t)
  {
  }

  lemma ReapingExact(lane: Lane, h: Hf, b: Boxes, why: Abort, t: Tick)
    requires Fence(lane, h, b)
    ensures Exact(lane, h, b, AbortReap(why), t)
  {
  }

  lemma UnfencingExact(lane: Lane, h: Hf, b: Boxes, why: Abort, t: Tick)
    requires Fence(lane, h, b)
    ensures Exact(lane, h, b, AbortUnfence(why), t)
  {
  }

  lemma LaunchingExact(lane: Lane, h: Hf, b: Boxes, t: Tick)
    requires Fence(lane, h, b) && h.phase == Armed
    ensures Exact(lane, h, b, LaunchUnderstudy, t)
  {
    hide Aborted;
    if t.launch == Launched {
    } else if t.launch == PutFailed && lane == RunLane {
    } else {
    }
  }

  lemma DrainingExact(lane: Lane, h: Hf, b: Boxes, t: Tick)
    requires Fence(lane, h, b) && h.phase == Draining
    ensures Exact(lane, h, b, DrainPrimary, t)
  {
  }

  lemma CompletingExact(lane: Lane, h: Hf, b: Boxes, t: Tick)
    requires Fence(lane, h, b) && h.phase == Draining
    ensures Exact(lane, h, b, Complete, t)
  {
  }

  lemma QuietExact(lane: Lane, h: Hf, b: Boxes, a: Action, t: Tick)
    requires Fence(lane, h, b)
    requires a.Noop? || a.WarmWait? || (a.Arm? && h.phase == Idle)
             || (a.MarkSynced? && (h.phase.Launching? || h.phase.Warming?))
    ensures Exact(lane, h, b, a, t)
  {
  }

  /** Reading signals moves no clock and no phase. */
  lemma ObservingKeepsStamps(lane: Lane, h: Hf, t: Tick)
    ensures var seen := Observe(lane, h, t);
            && seen.phase == h.phase && seen.startedTs == h.startedTs && seen.fenceTs == h.fenceTs
            && seen.drainTs == h.drainTs && seen.retargetIncomplete == h.retargetIncomplete
            && seen.primaryGone == h.primaryGone
            && seen.producing == (h.producing || (FenceOpen(h.phase) && t.producingSignal))
  {
  }

  lemma ObservingKeepsFence(lane: Lane, h: Hf, b: Boxes, t: Tick)
    ensures Fence(lane, Observe(lane, h, t), b) <==> Fence(lane, h, b)
    ensures Observe(lane, h, t).phase == h.phase
  {
  }

  /** From a fenced state one tick keeps the fence, and never has two writers even
      between giving the primary back and reaping, exactly when it is no hazard. */
  lemma TickKeepsFenceExactly(lane: Lane, h: Hf, b: Boxes, t: Tick)
    requires Fence(lane, h, b) && Honest(b, t)
    ensures var e := TickEffect(lane, h, b, t);
            (Fence(lane, e.h, e.post) && !TwoWriters(e.mid)) <==> !Hazard(lane, b, ActionAt(lane, h, t), t)
  {
    hide HandoffPoll, Fence, TwoWriters, Hazard, Execute, Observe;
    var seen := Observe(lane, h, t);
    var a := ActionAt(lane, h, t);
    PollTiming(ViewOf(lane, seen, t));
    ObservingKeepsFence(lane, h, b, t);
    match a
    case FencePrimary => FencingExact(lane, seen, b, t);
    case ResumeUnderstudy(how) => ResumingExact(lane, seen, b, how, t);
    case AbortReap(why) => ReapingExact(lane, seen, b, why, t);
    case AbortUnfence(why) => UnfencingExact(lane, seen, b, why, t);
    case LaunchUnderstudy => LaunchingExact(lane, seen, b, t);
    case DrainPrimary => DrainingExact(lane, seen, b, t);
    case Complete => CompletingExact(lane, seen, b, t);
    case _ => QuietExact(lane, seen, b, a, t);
  }

  // ---- runs -----------------------------------------------------------------

  /** What the market does to the boxes between ticks. A stopped bid box comes back
      by itself when its bid clears the floor, which a pinned bid never does. The
      primary's own ladder replaces or resumes it only while no fence is open. */
  datatype Event =
    | PrimaryStops
    | PrimaryComesBack
    | PrimaryLeaves
    | PrimaryRelaunched
    | UnderstudyStops
    | UnderstudyComesBack
    | TickEvent(t: Tick)

  datatype State = State(h: Hf, b: Boxes)

  predicate Possible(s: State, e: Event) {
    match e
    case PrimaryComesBack => s.b.primaryHere && !s.b.primaryPinned
    case PrimaryRelaunched => !FenceOpen(s.h.phase)
    case UnderstudyComesBack => s.b.understudyHere
    case TickEvent(t) => Honest(s.b, t)
    case _ => true
  }

  function NextState(lane: Lane, s: State, e: Event): State {
    match e
    case PrimaryStops => s.(b := s.b.(primaryOn := false))
    case PrimaryComesBack => s.(b := s.b.(primaryOn := true))
    case PrimaryLeaves => s.(b := s.b.(primaryOn := false, primaryHere := false))
    case PrimaryRelaunched =>
      s.(b := s.b.(primaryHere := true, primaryOn := true, primaryPinned := false, primaryClaims := true))
    case UnderstudyStops => s.(b := s.b.(understudyOn := false))
    case UnderstudyComesBack => s.(b := s.b.(understudyOn := true))
    case TickEvent(t) => var e := TickEffect(lane, s.h, s.b, t); State(e.h, e.post)
  }

  function StateAfter(lane: Lane, start: State, run: seq<Event>): State {
    if run == [] then start
    else NextState(lane, StateAfter(lane, start, run[..|run| - 1]), run[|run| - 1])
  }

  /** Every event of the run can happen where it happens. */
  predicate PossibleRun(lane: Lane, start: State, run: seq<Event>) {
    forall i :: 0 <= i < |run| ==> Possible(StateAfter(lane, start, run[..i]), run[i])
  }

  predicate HazardAt(lane: Lane, s: State, e: Event) {
    e.TickEvent? && Hazard(lane, s.b, ActionAt(lane, s.h, e.t), e.t)
  }

  predicate MidWriters(lane: Lane, s: State, e: Event) {
    e.TickEvent? && TwoWriters(TickEffect(lane, s.h, s.b, e.t).mid)
  }

  lemma EventKeepsFence(lane: Lane, s: State, e: Event)
    requires Fence(lane, s.h, s.b) && Possible(s, e)
    ensures (Fence(lane, NextState(lane, s, e).h, NextState(lane, s, e).b) && !MidWriters(lane, s, e))
            <==> !HazardAt(lane, s, e)
  {
    hide TickEffect, Hazard, ActionAt;
    if e.TickEvent? {
      TickKeepsFenceExactly(lane, s.h, s.b, e.t);
    }
  }

  /** Over every run of either lane, whatever the market and the boxes do: as long
      as no tick was a hazard there is never more than one writer, not after any
      event and not in the middle of one. */
  lemma {:induction false} OneWriterOverRuns(lane: Lane, start: State, run: seq<Event>)
    requires Fence(lane, start.h, start.b) && PossibleRun(lane, start, run)
    requires forall i :: 0 <= i < |run| ==> !HazardAt(lane, StateAfter(lane, start, run[..i]), run[i])
    ensures var s := StateAfter(lane, start, run);
            Fence(lane, s.h, s.b) && !TwoWriters(s.b)
    ensures forall i :: 0 <= i < |run| ==> !MidWriters(lane, StateAfter(lane, start, run[..i]), run[i])
  {
    hide NextState, HazardAt, MidWriters, Possible, Fence, TwoWriters, StateAfter;
    if run == [] {
      FencedIsOneWriter(lane, start.h, start.b);
      EmptyRun(lane, start);
    } else {
      var n := |run| - 1;
      var before := run[..n];
      forall i | 0 <= i < n ensures before[i] == run[i] && before[..i] == run[..i] {
      }
      OneWriterOverRuns(lane, start, before);
      LastState(lane, start, run);
      EventKeepsFence(lane, StateAfter(lane, start, before), run[n]);
      var s := StateAfter(lane, start, run);
      FencedIsOneWriter(lane, s.h, s.b);
    }
  }

  lemma EmptyRun(lane: Lane, start: State)
    ensures StateAfter(lane, start, []) == start
  {
  }

  lemma LastState(lane: Lane, start: State, run: seq<Event>)
    requires run != []
    ensures StateAfter(lane, start, run)
            == NextState(lane, StateAfter(lane, start, run[..|run| - 1]), run[|run| - 1])
  {
  }

  // ---- every hazard is one ----------------------------------------------------

  const NO_MONEY := Economics(None, None, None, None, None, 0.0, None, 0.0)
  const NO_WORK := Work(true, 0, None, false, false)

  /** A tick on which every request succeeds and nothing is listed. */
  function CalmTick(now: real): Tick {
    Tick(now, NotListed(true), false, false, false, 0, None, NO_MONEY, NO_WORK,
         Launched, true, true, false, false, true, true, true, true, true, true)
  }

  /** A continuation that shows two writers, none of its own ticks being a hazard. */
  predicate Overlaps(lane: Lane, s: State, more: seq<Event>) {
    && |more| <= 3 && PossibleRun(lane, s, more)
    && (forall i :: 0 <= i < |more| ==> !HazardAt(lane, StateAfter(lane, s, more[..i]), more[i]))
    && TwoWriters(StateAfter(lane, s, more).b)
  }

  ghost predicate MayOverlap(lane: Lane, s: State) { exists more :: Overlaps(lane, s, more) }

  /** Two events, neither a tick. */
  lemma OverlapsAfterTwo(lane: Lane, s: State, e: Event, f: Event)
    requires !e.TickEvent? && !f.TickEvent?
    requires Possible(s, e) && Possible(NextState(lane, s, e), f)
    requires TwoWriters(NextState(lane, NextState(lane, s, e), f).b)
    ensures MayOverlap(lane, s)
  {
    TwoEvents(lane, s, e, f);
    assert Overlaps(lane, s, [e, f]);
  }

  /** Three events, the last one a tick that is no hazard. */
  lemma OverlapsAfterThree(lane: Lane, s: State, e: Event, f: Event, g: Event)
    requires !e.TickEvent? && !f.TickEvent?
    requires var u := NextState(lane, NextState(lane, s, e), f);
             && Possible(s, e) && Possible(NextState(lane, s, e), f) && Possible(u, g)
             && !HazardAt(lane, u, g) && TwoWriters(NextState(lane, u, g).b)
    ensures MayOverlap(lane, s)
  {
    hide NextState, Possible, HazardAt;
    TwoEvents(lane, s, e, f);
    var more := [e, f, g];
    assert more[..2] == [e, f] && more[..1] == [e] && more[..0] == [];
    assert [e, f][..1] == [e] && [e, f][..0] == [];
    OneEvent(lane, s, e);
    assert StateAfter(lane, s, more) == NextState(lane, StateAfter(lane, s, [e, f]), g);
    assert !HazardAt(lane, s, e) && !HazardAt(lane, NextState(lane, s, e), f) by { NoTickNoHazard(lane, s, e); NoTickNoHazard(lane, NextState(lane, s, e), f); }
    assert Overlaps(lane, s, more);
  }

  lemma NoTickNoHazard(lane: Lane, s: State, e: Event)
    requires !e.TickEvent?
    ensures !HazardAt(lane, s, e)
  {
  }

  lemma OneEvent(lane: Lane, s: State, e: Event)
    ensures StateAfter(lane, s, []) == s && StateAfter(lane, s, [e]) == NextState(lane, s, e)
  {
    assert [e][..0] == [];
  }

  /** Both boxes come back by themselves. */
  lemma BothComeBack(lane: Lane, s: State)
    requires s.b.primaryHere && !s.b.primaryPinned && s.b.primaryClaims
    requires s.b.understudyHere && s.b.understudyClaims
    ensures MayOverlap(lane, s)
  {
    OverlapsAfterTwo(lane, s, PrimaryComesBack, UnderstudyComesBack);
  }

  /** With no fence open the ladder replaces the primary beside a claiming understudy. */
  lemma RelaunchedBeside(lane: Lane, s: State)
    requires s.h.phase == Idle && s.b.understudyHere && s.b.understudyClaims
    ensures MayOverlap(lane, s)
  {
    OverlapsAfterTwo(lane, s, PrimaryRelaunched, UnderstudyComesBack);
  }

  /** An open fence over a primary that is on, or can come back, is one flush away. */
  lemma FlushedBeside(lane: Lane, s: State)
    requires s.h.phase == Cutover && s.h.fenceTs.Some?
    requires s.b.primaryClaims && s.b.understudyHere
    requires s.b.primaryOn || (s.b.primaryHere && !s.b.primaryPinned)
    ensures MayOverlap(lane, s)
  {
    var flush := CalmTick(s.h.fenceTs.value).(flushSignal := true, claimLeft := true);
    var u := NextState(lane, s, UnderstudyComesBack);
    if s.b.primaryOn {
      FlushPromotes(lane, u, flush);
      OverlapsAfterThree(lane, s, UnderstudyComesBack, UnderstudyComesBack, TickEvent(flush));
    } else {
      var v := NextState(lane, u, PrimaryComesBack);
      FlushPromotes(lane, v, flush);
      OverlapsAfterThree(lane, s, UnderstudyComesBack, PrimaryComesBack, TickEvent(flush));
    }
  }

  lemma FlushPromotes(lane: Lane, s: State, t: Tick)
    requires s.h.phase == Cutover && s.h.fenceTs.Some?
    requires t == CalmTick(s.h.fenceTs.value).(flushSignal := true, claimLeft := true)
    ensures ActionAt(lane, s.h, t) == ResumeUnderstudy(PostFlush)
    ensures !HazardAt(lane, s, TickEvent(t)) && Possible(s, TickEvent(t))
    ensures NextState(lane, s, TickEvent(t)).b == s.b.(understudyClaims := true)
  {
    hide HeadroomOk, CandidateOk, DwellSatisfied, ArmRefused, FenceHeld;
  }

  lemma HazardLeadsToOverlap(lane: Lane, s: State, t: Tick)
    requires Fence(lane, s.h, s.b) && Honest(s.b, t) && HazardAt(lane, s, TickEvent(t))
    ensures MidWriters(lane, s, TickEvent(t)) || MayOverlap(lane, NextState(lane, s, TickEvent(t)))
  {
    hide HandoffPoll, MayOverlap, Observe;
    var seen := Observe(lane, s.h, t);
    var a := ActionAt(lane, s.h, t);
    var next := NextState(lane, s, TickEvent(t));
    PollTiming(ViewOf(lane, seen, t));
    ObservingKeepsFence(lane, s.h, s.b, t);
    match a
    case FencePrimary => FlushedBeside(lane, next);
    case ResumeUnderstudy(how) => BothComeBack(lane, next);
    case AbortReap(_) => RelaunchedBeside(lane, next);
    case AbortUnfence(_) =>
      if !MidWriters(lane, s, TickEvent(t)) {
        RelaunchedBeside(lane, next);
      }
    case _ =>
  }

  /** From a fenced state an event is a hazard exactly when it can cost the fence: it
      shows two writers in its middle, or some continuation of at most three events,
      none of them a hazard, comes to two writers. */
  lemma HazardExactly(lane: Lane, s: State, e: Event)
    requires Fence(lane, s.h, s.b) && Possible(s, e)
    ensures HazardAt(lane, s, e) <==> MidWriters(lane, s, e) || MayOverlap(lane, NextState(lane, s, e))
  {
    hide Fence, Possible, NextState, HazardAt, MidWriters, TwoWriters;
    EventKeepsFence(lane, s, e);
    if HazardAt(lane, s, e) {
      assert e.TickEvent? by { HazardsAreTicks(lane, s, e); }
      assert Honest(s.b, e.t) by { PossibleTick(s, e.t); }
      HazardLeadsToOverlap(lane, s, e.t);
    } else if MayOverlap(lane, NextState(lane, s, e)) {
      var more :| Overlaps(lane, NextState(lane, s, e), more);
      OneWriterOverRuns(lane, NextState(lane, s, e), more);
    }
  }

  lemma HazardsAreTicks(lane: Lane, s: State, e: Event)
    requires HazardAt(lane, s, e)
    ensures e.TickEvent?
  {
  }

  lemma PossibleTick(s: State, t: Tick)
    requires Possible(s, TickEvent(t))
    ensures Honest(s.b, t)
  {
  }

  /** What no watcher of the boxes should ever see, or be a few calm events from seeing. */
  ghost predicate OverlapAt(lane: Lane, start: State, run: seq<Event>, i: nat)
    requires i < |run|
  {
    MidWriters(lane, StateAfter(lane, start, run[..i]), run[i]) || MayOverlap(lane, StateAfter(lane, start, run[..i + 1]))
  }

  predicate HazardIn(lane: Lane, start: State, run: seq<Event>, i: nat)
    requires i < |run|
  {
    HazardAt(lane, StateAfter(lane, start, run[..i]), run[i])
  }

  lemma SamePrefix(lane: Lane, start: State, run: seq<Event>, n: nat, i: nat)
    requires i < n <= |run|
    ensures HazardIn(lane, start, run[..n], i) == HazardIn(lane, start, run, i)
    ensures OverlapAt(lane, start, run[..n], i) == OverlapAt(lane, start, run, i)
  {
    assert run[..n][..i] == run[..i] && run[..n][..i + 1] == run[..i + 1] && run[..n][i] == run[i];
  }

  /** The last event of a run that was free of hazards up to it. */
  lemma LastHazardExactly(lane: Lane, start: State, run: seq<Event>)
    requires Fence(lane, start.h, start.b) && PossibleRun(lane, start, run) && run != []
    requires forall i :: 0 <= i < |run| - 1 ==> !HazardIn(lane, start, run, i)
    ensures HazardIn(lane, start, run, |run| - 1) <==> OverlapAt(lane, start, run, |run| - 1)
  {
    hide NextState, HazardAt, MidWriters, Possible, Fence, TwoWriters, MayOverlap;
    var n := |run| - 1;
    var before := run[..n];
    forall i | 0 <= i < n ensures before[i] == run[i] && before[..i] == run[..i] {
    }
    forall i | 0 <= i < n ensures !HazardAt(lane, StateAfter(lane, start, before[..i]), before[i]) {
      assert !HazardIn(lane, start, run, i);
    }
    OneWriterOverRuns(lane, start, before);
    assert run[..n + 1] == run;
    HazardExactly(lane, StateAfter(lane, start, before), run[n]);
  }

  /** Whole runs: a run is free of hazards exactly when none of its events brings two
      writers about or leaves them a few hazard-free events away. */
  lemma {:induction false} OneWriterExactly(lane: Lane, start: State, run: seq<Event>)
    requires Fence(lane, start.h, start.b) && PossibleRun(lane, start, run)
    ensures (forall i :: 0 <= i < |run| ==> !HazardIn(lane, start, run, i))
            <==> (forall i :: 0 <= i < |run| ==> !OverlapAt(lane, start, run, i))
  {
    hide StateAfter, Possible, Fence, HazardIn, OverlapAt;
    if run != [] {
      var n := |run| - 1;
      assert PossibleRun(lane, start, run[..n]) by {
        assert forall i :: 0 <= i < n ==> run[..n][i] == run[i] && run[..n][..i] == run[..i];
      }
      OneWriterExactly(lane, start, run[..n]);
      forall i | 0 <= i < n
        ensures HazardIn(lane, start, run[..n], i) == HazardIn(lane, start, run, i)
        ensures OverlapAt(lane, start, run[..n], i) == OverlapAt(lane, start, run, i)
      {
        SamePrefix(lane, start, run, n, i);
      }
      if forall i :: 0 <= i < n ==> !HazardIn(lane, start, run, i) {
        LastHazardExactly(lane, start, run);
      }
    }
  }

  // ---- hazards at work --------------------------------------------------------

  /** With every request answered, draining past its deadline over an understudy
      that is alive but has not produced yet puts both boxes to work at once: the
      primary is given back first. */
  lemma DrainDeadlineOverlaps(h: Hf, b: Boxes, t: Tick)
    requires Fence(RunLane, h, b) && Honest(b, t)
    requires !h.producing && !t.producingSignal && !h.primaryGone
    requires b.primaryHere && b.understudyOn && b.understudyClaims
    requires Elapsed(h.drainTs, t.now, HANDOFF_DRAIN_DEADLINE_S)
    requires t.bidKnown && t.resumeOk
    ensures ActionAt(RunLane, h, t).AbortUnfence?
    ensures TwoWriters(TickEffect(RunLane, h, b, t).mid)
  {
  }

  /** A refused park: the flush times out and the understudy is promoted beside a
      primary that never stopped. */
  lemma RefusedParkOverlaps()
    ensures var h := Reset(0, 0.0).(phase := Synced, startedTs := Some(0.0), launched := true);
            var b := Boxes(true, true, false, true, true, true, false);
            var run := [TickEvent(CalmTick(0.0).(parkOk := false)), TickEvent(CalmTick(900.0))];
            && Fence(RunLane, h, b) && PossibleRun(RunLane, State(h, b), run)
            && TwoWriters(StateAfter(RunLane, State(h, b), run).b)
  {
    var s := State(Reset(0, 0.0).(phase := Synced, startedTs := Some(0.0), launched := true),
                   Boxes(true, true, false, true, true, true, false));
    TwoEvents(RunLane, s, TickEvent(CalmTick(0.0).(parkOk := false)), TickEvent(CalmTick(900.0)));
  }

  /** The run lane's fast cutover leaves a listed primary unpinned: when its floor
      recedes the market brings it back beside the promoted understudy. */
  lemma FastCutoverOverlaps()
    ensures var h := Reset(0, 0.0).(phase := Synced, startedTs := Some(0.0), launched := true);
            var b := Boxes(true, false, false, true, true, true, false);
            var run := [TickEvent(CalmTick(0.0).(primaryEvicted := true)), PrimaryComesBack];
            && Fence(RunLane, h, b) && PossibleRun(RunLane, State(h, b), run)
            && TwoWriters(StateAfter(RunLane, State(h, b), run).b)
  {
    var s := State(Reset(0, 0.0).(phase := Synced, startedTs := Some(0.0), launched := true),
                   Boxes(true, false, false, true, true, true, false));
    TwoEvents(RunLane, s, TickEvent(CalmTick(0.0).(primaryEvicted := true)), PrimaryComesBack);
  }

  lemma TwoEvents(lane: Lane, s: State, e: Event, f: Event)
    ensures StateAfter(lane, s, [e, f]) == NextState(lane, NextState(lane, s, e), f)
    ensures PossibleRun(lane, s, [e, f]) <==> Possible(s, e) && Possible(NextState(lane, s, e), f)
  {
    hide NextState, Possible;
    assert [e, f][..0] == [] && [e, f][..1] == [e] && [e][..0] == [];
    assert StateAfter(lane, s, [e]) == NextState(lane, s, e);
    assert [e, f][0] == e && [e, f][1] == f;
  }

  // ---- a migration that goes well --------------------------------------------

  /** Every request of the tick is answered, and the fence is free to open. */
  predicate Smooth(t: Tick) {
    && t.parkOk && t.pinOk && !t.claimLeft && !t.retargetStuck && t.drainOk
    && !t.primaryEvicted && !FenceHeld(t.work) && t.sighting == Listed(true, true)
  }

  function Ticked(lane: Lane, s: State, t: Tick): State {
    var e := TickEffect(lane, s.h, s.b, t);
    State(e.h, e.post)
  }

  /** Past the sync four smooth ticks complete the migration: fence, cutover on the
      flush, drain on proof of life, done. One box is left, the understudy, tracked and
      writing, and at no point were there two writers. */
  lemma SmoothMigrationCompletes(lane: Lane, s: State, t1: Tick, t2: Tick, t3: Tick, t4: Tick)
    requires Fence(lane, s.h, s.b) && Stamped(lane, s.h) && s.h.phase == Synced
    requires !s.h.retargetIncomplete && !s.h.primaryGone && s.b.understudyOn
    requires Smooth(t1) && Smooth(t2) && Smooth(t3) && Smooth(t4)
    requires !Elapsed(s.h.startedTs, t1.now, HANDOFF_DEADLINE_S) && t2.now - t1.now < HANDOFF_FENCE_UNWIND_S
    requires t2.flushSignal && t3.producingSignal
    ensures var s1 := Ticked(lane, s, t1);
            var s2 := Ticked(lane, s1, t2);
            var s3 := Ticked(lane, s2, t3);
            var s4 := Ticked(lane, s3, t4);
            && s1.h.phase == Cutover && s2.h.phase == Draining && s3.h.primaryGone
            && s4.h.phase == Idle && s4.h.handoffsDone == s.h.handoffsDone + 1
            && s4.b == Boxes(true, true, false, true, false, false, false)
            && !TwoWriters(s1.b) && !TwoWriters(s2.b) && !TwoWriters(s3.b) && !TwoWriters(s4.b)
  {
    hide Ticked, TwoWriters;
    SmoothFence(lane, s, t1);
    var s1 := Ticked(lane, s, t1);
    SmoothCutover(lane, s1, t2);
    var s2 := Ticked(lane, s1, t2);
    SmoothDrain(lane, s2, t3);
    var s3 := Ticked(lane, s2, t3);
    SmoothFinish(lane, s3, t4);
    assert !TwoWriters(s1.b) && !TwoWriters(s2.b) && !TwoWriters(s3.b) && !TwoWriters(Ticked(lane, s3, t4).b) by {
      OffIsNoWriter(s1.b);
      OffIsNoWriter(s2.b);
      OffIsNoWriter(s3.b);
      OffIsNoWriter(Ticked(lane, s3, t4).b);
    }
  }

  lemma OffIsNoWriter(b: Boxes)
    requires !b.primaryOn || !b.understudyOn
    ensures !TwoWriters(b)
  {
  }

  lemma SmoothFence(lane: Lane, s: State, t: Tick)
    requires Fence(lane, s.h, s.b) && Stamped(lane, s.h) && s.h.phase == Synced && Smooth(t)
    requires !Elapsed(s.h.startedTs, t.now, HANDOFF_DEADLINE_S) && !s.h.retargetIncomplete
    ensures var r := Ticked(lane, s, t);
            && r.h.phase == Cutover && r.h.fenceTs == Some(t.now) && r.h.handoffsDone == s.h.handoffsDone
            && !r.b.primaryOn && r.b.primaryHere == s.b.primaryHere
            && r.b.understudyOn == s.b.understudyOn && r.b.understudyHere == s.b.understudyHere
            && !r.h.retargetIncomplete && r.h.primaryGone == s.h.primaryGone
  {
    hide FenceHeld, HeadroomOk, CandidateOk, DwellSatisfied, ArmRefused;
  }

  lemma SmoothCutover(lane: Lane, s: State, t: Tick)
    requires s.h.phase == Cutover && s.h.fenceTs.Some? && t.now - s.h.fenceTs.value < HANDOFF_FENCE_UNWIND_S
    requires Smooth(t) && t.flushSignal && !s.b.primaryOn && !s.h.retargetIncomplete
    ensures var r := Ticked(lane, s, t);
            && r.h.phase == Draining && r.h.handoffsDone == s.h.handoffsDone && !r.h.retargetIncomplete
            && r.h.primaryGone == s.h.primaryGone
            && !r.b.primaryOn && r.b.primaryHere == s.b.primaryHere
            && r.b.understudyOn == s.b.understudyOn && r.b.understudyHere == s.b.understudyHere && r.b.understudyClaims
  {
    hide FenceHeld, HeadroomOk, CandidateOk, DwellSatisfied, ArmRefused;
  }

  lemma SmoothDrain(lane: Lane, s: State, t: Tick)
    requires s.h.phase == Draining && !s.h.primaryGone && !s.h.retargetIncomplete
    requires Smooth(t) && t.producingSignal
    ensures var r := Ticked(lane, s, t);
            && r.h.phase == Draining && r.h.primaryGone && r.h.producing && !r.h.retargetIncomplete
            && r.h.handoffsDone == s.h.handoffsDone
            && r.b == s.b.(primaryHere := false, primaryOn := false)
  {
    hide FenceHeld, HeadroomOk, CandidateOk, DwellSatisfied, ArmRefused;
  }

  lemma SmoothFinish(lane: Lane, s: State, t: Tick)
    requires s.h.phase == Draining && s.h.primaryGone && s.h.producing && !s.h.retargetIncomplete && Smooth(t)
    ensures var r := Ticked(lane, s, t);
            && r.h.phase == Idle && r.h.handoffsDone == s.h.handoffsDone + 1 && r.b == Promoted(s.b)
  {
    hide FenceHeld, HeadroomOk, CandidateOk, DwellSatisfied, ArmRefused;
  }

  // ---- deadlines ------------------------------------------------------------

  /** Every phase carries the stamp its deadline is measured from. In the jobs lane
      draining carries none. */
  predicate Stamped(lane: Lane, h: Hf) {
    && (h.phase != Idle ==> h.startedTs.Some?)
    && (h.phase == Cutover ==> h.fenceTs.Some?)
    && (h.phase == Draining && lane == RunLane ==> h.drainTs.Some?)
    && (lane == JobsLane ==> h.drainTs.None?)
  }

  predicate Within(since: Option<real>, now: real, limit: real) { since.Some? && now - since.value < limit }

  /** No phase outlives its deadline past the tick that sees it elapsed. */
  predicate Timely(lane: Lane, h: Hf, now: real) {
    && (PreCutover(h.phase) ==> Within(h.startedTs, now, HANDOFF_DEADLINE_S))
    && (h.phase == Cutover ==> Within(h.fenceTs, now, HANDOFF_FENCE_UNWIND_S))
    && (h.phase == Draining && lane == RunLane ==>
          h.producing || Within(h.drainTs, now, HANDOFF_DRAIN_DEADLINE_S))
  }

  lemma LaunchingIsTimely(lane: Lane, h: Hf, b: Boxes, t: Tick)
    requires Stamped(lane, h) && h.phase == Armed && !Elapsed(h.startedTs, t.now, HANDOFF_DEADLINE_S)
    ensures var e := Execute(lane, h, b, LaunchUnderstudy, t);
            Stamped(lane, e.h) && Timely(lane, e.h, t.now)
  {
    hide Reaped, Aborted;
  }

  lemma ResumingIsTimely(lane: Lane, h: Hf, b: Boxes, how: Resume, t: Tick)
    requires Stamped(lane, h)
    requires if how == FastCutover then h.phase == Synced
             else h.phase == Cutover && !Elapsed(h.fenceTs, t.now, HANDOFF_FENCE_UNWIND_S)
    ensures var e := Execute(lane, h, b, ResumeUnderstudy(how), t);
            Stamped(lane, e.h) && Timely(lane, e.h, t.now)
  {
    hide ResumedBoxes;
  }

  lemma ActingIsTimely(lane: Lane, h: Hf, b: Boxes, a: Action, t: Tick)
    requires Stamped(lane, h)
    requires PreCutover(h.phase) && Elapsed(h.startedTs, t.now, HANDOFF_DEADLINE_S)
             ==> a.AbortReap? || a == ResumeUnderstudy(FastCutover)
    requires h.phase == Cutover && Elapsed(h.fenceTs, t.now, HANDOFF_FENCE_UNWIND_S) ==> a.AbortUnfence?
    requires h.phase == Draining ==>
               h.producing || a.AbortReap? || a.AbortUnfence? || !Elapsed(h.drainTs, t.now, HANDOFF_DRAIN_DEADLINE_S)
    requires a.ResumeUnderstudy? ==> if a.how == FastCutover then h.phase == Synced else h.phase == Cutover
    requires a.LaunchUnderstudy? ==> h.phase == Armed
    requires a.MarkSynced? ==> h.phase.Launching? || h.phase.Warming?
    requires a.FencePrimary? ==> h.phase == Synced
    ensures var e := Execute(lane, h, b, a, t);
            Stamped(lane, e.h) && Timely(lane, e.h, t.now)
  {
    hide Fenced, Reaped, ResumedBoxes, MovedBack, Unfenced, Promoted, Aborted;
    match a
    case LaunchUnderstudy => LaunchingIsTimely(lane, h, b, t);
    case ResumeUnderstudy(how) => ResumingIsTimely(lane, h, b, how, t);
    case _ =>
  }

  /** Whatever the environment answers, a tick leaves the machine inside the
      deadline of whatever phase it leaves it in, a held fence included. */
  lemma TickIsTimely(lane: Lane, h: Hf, b: Boxes, t: Tick)
    requires Stamped(lane, h)
    ensures var e := TickEffect(lane, h, b, t);
            Stamped(lane, e.h) && Timely(lane, e.h, t.now)
  {
    hide HandoffPoll, Observe, Execute, Elapsed;
    var seen := Observe(lane, h, t);
    ObservingKeepsStamps(lane, h, t);
    PollTiming(ViewOf(lane, seen, t));
    ActingIsTimely(lane, seen, b, ActionAt(lane, h, t), t);
  }

  /** How old the attempt can be, phase by phase, when ticks are at most `gap` apart. */
  predicate Young(h: Hf, now: real, gap: real) {
    && (PreCutover(h.phase) ==> Within(h.startedTs, now, HANDOFF_DEADLINE_S))
    && (h.phase == Cutover ==>
          Within(h.fenceTs, now, HANDOFF_FENCE_UNWIND_S) && Within(h.startedTs, h.fenceTs.value, HANDOFF_DEADLINE_S))
    && (h.phase == Draining ==>
          Within(h.drainTs, now, HANDOFF_DRAIN_DEADLINE_S)
          && Within(h.startedTs, h.drainTs.value, HANDOFF_DEADLINE_S + HANDOFF_FENCE_UNWIND_S + gap))
  }

  lemma TickStaysYoung(h: Hf, b: Boxes, t: Tick, before: real, gap: real)
    requires Young(h, before, gap) && before <= t.now <= before + gap && gap >= 0.0
    requires !h.producing && !t.producingSignal
    ensures var e := TickEffect(RunLane, h, b, t);
            Young(e.h, t.now, gap) && !e.h.producing
  {
    hide HandoffPoll, Observe;
    ObservingKeepsStamps(RunLane, h, t);
    PollTiming(ViewOf(RunLane, Observe(RunLane, h, t), t));
  }

  function TicksAfter(lane: Lane, s: State, ticks: seq<Tick>): State {
    if ticks == [] then s
    else
      var p := TicksAfter(lane, s, ticks[..|ticks| - 1]);
      var e := TickEffect(lane, p.h, p.b, ticks[|ticks| - 1]);
      State(e.h, e.post)
  }

  /** Ticks never step back and are at most `gap` apart. */
  predicate Regular(start: real, ticks: seq<Tick>, gap: real) {
    ticks == [] ||
    var n := |ticks| - 1;
    var before := if n == 0 then start else ticks[n - 1].now;
    Regular(start, ticks[..n], gap) && before <= ticks[n].now <= before + gap
  }

  lemma {:induction false} YoungOverTicks(s: State, armedAt: real, ticks: seq<Tick>, gap: real)
    requires gap >= 0.0 && Regular(armedAt, ticks, gap)
    requires Young(s.h, armedAt, gap) && !s.h.producing
    requires forall t :: t in ticks ==> !t.producingSignal
    ensures var e := TicksAfter(RunLane, s, ticks);
            Young(e.h, if ticks == [] then armedAt else ticks[|ticks| - 1].now, gap) && !e.h.producing
  {
    hide TickEffect, Young;
    if ticks != [] {
      var n := |ticks| - 1;
      assert ticks[n] in ticks;
      YoungOverTicks(s, armedAt, ticks[..n], gap);
      assert n > 0 ==> ticks[..n][n - 1] == ticks[n - 1];
      var p := TicksAfter(RunLane, s, ticks[..n]);
      TickStaysYoung(p.h, p.b, ticks[n], if n == 0 then armedAt else ticks[n - 1].now, gap);
    }
  }

  lemma RegularGap(start: real, ticks: seq<Tick>, gap: real)
    requires Regular(start, ticks, gap) && ticks != []
    ensures gap >= 0.0
  {
  }

  /** In the run lane an attempt whose understudy never produces is over, one way
      or another, within its three half-hour deadlines and one tick: still being
      in flight means still being that young. */
  lemma AttemptsEnd(s: State, armedAt: real, ticks: seq<Tick>, gap: real)
    requires Regular(armedAt, ticks, gap) && ticks != []
    requires s.h.phase == Armed && s.h.startedTs == Some(armedAt) && !s.h.producing
    requires forall t :: t in ticks ==> !t.producingSignal
    ensures var h := TicksAfter(RunLane, s, ticks).h;
            h.phase == Idle || (h.startedTs.Some?
                                && ticks[|ticks| - 1].now - h.startedTs.value < 3.0 * HANDOFF_DEADLINE_S + gap)
  {
    hide TicksAfter;
    assert gap >= 0.0 by { RegularGap(armedAt, ticks, gap); }
    YoungOverTicks(s, armedAt, ticks, gap);
  }

  /** Once the flush timeout has passed, the cutover has been offered and only a
      ticket the jobs lane could not delete can still hold it. */
  predicate CutoverOffered(lane: Lane, h: Hf, now: real) {
    h.phase == Cutover && !Within(h.fenceTs, now, HANDOFF_FENCE_TIMEOUT_S) ==>
      lane == JobsLane && h.retargetIncomplete
  }

  /** With ticks no further apart than the flush timeout the fence is unwound only
      after a cutover was offered and got stuck; in the run lane it never is. */
  lemma UnwindFollowsAnOfferedCutover(lane: Lane, h: Hf, b: Boxes, t: Tick, before: real)
    requires Stamped(lane, h) && CutoverOffered(lane, h, before)
    requires before <= t.now <= before + HANDOFF_FENCE_TIMEOUT_S
    ensures CutoverOffered(lane, TickEffect(lane, h, b, t).h, t.now)
    ensures ActionAt(lane, h, t) == AbortUnfence(FenceUnwind) ==> lane == JobsLane && h.retargetIncomplete
  {
    hide HandoffPoll, Observe;
    ObservingKeepsStamps(lane, h, t);
    PollTiming(ViewOf(lane, Observe(lane, h, t), t));
  }

  // ---- what a run's irreversible steps rest on --------------------------------

  function PhaseAfter(lane: Lane, s: State, ticks: seq<Tick>, k: nat): Phase
    requires k <= |ticks|
  {
    TicksAfter(lane, s, ticks[..k]).h.phase
  }

  function ActionIn(lane: Lane, s: State, ticks: seq<Tick>, j: nat): Action
    requires j < |ticks|
  {
    ActionAt(lane, TicksAfter(lane, s, ticks[..j]).h, ticks[j])
  }

  /** Tick `j` offered the cutover, a ticket could not be deleted, and the fence has
      stood in the cutover ever since. */
  predicate StuckSince(lane: Lane, s: State, ticks: seq<Tick>, j: nat) {
    && j < |ticks| && lane == JobsLane && ActionIn(lane, s, ticks, j).ResumeUnderstudy? && ticks[j].retargetStuck
    && forall k :: j <= k <= |ticks| ==> PhaseAfter(lane, s, ticks, k) == Cutover
  }

  /** Nothing unresumable runs, nothing is about to finish, and the checkpoint is recent. */
  predicate Resumable(w: Work) {
    && w.runningUnresumable <= 0 && !w.ckptStale
    && (w.minRunningEtaS.Some? ==> w.minRunningEtaS.value >= HANDOFF_FENCE_HOLD_ETA_S)
  }

  /** Tick `j` opened the fence that is open still: over work that can come back, or
      because the primary was lost. */
  predicate OpenSince(lane: Lane, s: State, ticks: seq<Tick>, j: nat) {
    && j < |ticks|
    && ((ActionIn(lane, s, ticks, j) == FencePrimary && Resumable(ticks[j].work) && !ticks[j].primaryEvicted)
        || (ActionIn(lane, s, ticks, j) == ResumeUnderstudy(FastCutover) && ticks[j].primaryEvicted))
    && forall k :: j < k <= |ticks| ==> FenceOpen(PhaseAfter(lane, s, ticks, k))
  }

  /** Tick `j` saw the understudy produce, behind the fence that is open still. */
  predicate ProvedSince(lane: Lane, s: State, ticks: seq<Tick>, j: nat) {
    && j < |ticks| && ticks[j].producingSignal
    && forall k :: j <= k <= |ticks| ==> FenceOpen(PhaseAfter(lane, s, ticks, k))
  }

  /** The machine at rest or just armed, before any of this attempt's fences. */
  predicate BeforeFence(lane: Lane, h: Hf) {
    (h.phase.Idle? || PreCutover(h.phase)) && Stamped(lane, h) && !h.retargetIncomplete && !h.producing && !h.primaryGone
  }

  /** What the machine's own flags stand for. */
  ghost predicate Grounded(lane: Lane, s: State, ticks: seq<Tick>) {
    var h := TicksAfter(lane, s, ticks).h;
    && Stamped(lane, h)
    && (h.retargetIncomplete || h.producing ==> FenceOpen(h.phase))
    && (h.phase == Cutover && h.retargetIncomplete ==> exists j :: StuckSince(lane, s, ticks, j))
    && (FenceOpen(h.phase) ==> exists j :: OpenSince(lane, s, ticks, j))
    && (h.producing ==> exists j :: ProvedSince(lane, s, ticks, j))
  }

  /** How one tick comes by each flag. */
  lemma FlagsComeFrom(lane: Lane, h: Hf, b: Boxes, t: Tick)
    requires Stamped(lane, h) && (h.retargetIncomplete || h.producing ==> FenceOpen(h.phase))
    ensures var e, a := TickEffect(lane, h, b, t).h, ActionAt(lane, h, t);
            && Stamped(lane, e)
            && (e.retargetIncomplete || e.producing ==> FenceOpen(e.phase))
            && (e.phase == Cutover && e.retargetIncomplete ==>
                  h.phase == Cutover && (h.retargetIncomplete || (lane == JobsLane && a.ResumeUnderstudy? && t.retargetStuck)))
            && (FenceOpen(e.phase) ==>
                  || FenceOpen(h.phase)
                  || (a == FencePrimary && Resumable(t.work) && !t.primaryEvicted)
                  || (a == ResumeUnderstudy(FastCutover) && t.primaryEvicted))
            && (e.producing ==> FenceOpen(h.phase) && (h.producing || t.producingSignal))
  {
    hide HandoffPoll, Observe, FenceHeld, Elapsed, Fenced, Reaped, ResumedBoxes, MovedBack, Unfenced, Promoted;
    var v := ViewOf(lane, Observe(lane, h, t), t);
    ObservingKeepsStamps(lane, h, t);
    PollTiming(v);
    IrreversibleStepsAreGuarded(v);
  }

  lemma PrefixSame(lane: Lane, s: State, ticks: seq<Tick>, t: Tick, k: nat)
    requires k <= |ticks|
    ensures PhaseAfter(lane, s, ticks + [t], k) == PhaseAfter(lane, s, ticks, k)
    ensures k < |ticks| ==> ActionIn(lane, s, ticks + [t], k) == ActionIn(lane, s, ticks, k)
    ensures k == |ticks| ==> ActionIn(lane, s, ticks + [t], k) == ActionAt(lane, TicksAfter(lane, s, ticks).h, t)
    ensures k == |ticks| ==> PhaseAfter(lane, s, ticks, k) == TicksAfter(lane, s, ticks).h.phase
  {
    assert (ticks + [t])[..k] == ticks[..k];
    assert k == |ticks| ==> ticks[..k] == ticks;
  }

  lemma TickAfterLast(lane: Lane, s: State, ticks: seq<Tick>, t: Tick)
    ensures var p, q := TicksAfter(lane, s, ticks), TicksAfter(lane, s, ticks + [t]);
            q.h == TickEffect(lane, p.h, p.b, t).h
    ensures PhaseAfter(lane, s, ticks + [t], |ticks| + 1) == TicksAfter(lane, s, ticks + [t]).h.phase
  {
    assert (ticks + [t])[..|ticks|] == ticks && (ticks + [t])[..|ticks| + 1] == ticks + [t];
  }

  lemma GroundedStays(lane: Lane, s: State, ticks: seq<Tick>, t: Tick)
    requires Grounded(lane, s, ticks)
    ensures Grounded(lane, s, ticks + [t])
  {
    hide TickEffect, ActionAt, Stamped, TicksAfter, PhaseAfter, ActionIn, Resumable, FenceOpen;
    var n, more := |ticks|, ticks + [t];
    var p, q := TicksAfter(lane, s, ticks), TicksAfter(lane, s, more);
    TickAfterLast(lane, s, ticks, t);
    FlagsComeFrom(lane, p.h, p.b, t);
    forall k: nat | k <= n
      ensures PhaseAfter(lane, s, more, k) == PhaseAfter(lane, s, ticks, k)
      ensures k < n ==> ActionIn(lane, s, more, k) == ActionIn(lane, s, ticks, k)
    {
      PrefixSame(lane, s, ticks, t, k);
    }
    PrefixSame(lane, s, ticks, t, n);
    if q.h.phase == Cutover && q.h.retargetIncomplete {
      if p.h.retargetIncomplete {
        var j :| StuckSince(lane, s, ticks, j);
        assert StuckSince(lane, s, more, j);
      } else {
        assert StuckSince(lane, s, more, n);
      }
    }
    if FenceOpen(q.h.phase) {
      if FenceOpen(p.h.phase) {
        var j :| OpenSince(lane, s, ticks, j);
        assert OpenSince(lane, s, more, j);
      } else {
        assert OpenSince(lane, s, more, n);
      }
    }
    if q.h.producing {
      if p.h.producing {
        var j :| ProvedSince(lane, s, ticks, j);
        assert ProvedSince(lane, s, more, j);
      } else {
        assert ProvedSince(lane, s, more, n);
      }
    }
  }

  lemma {:induction false} GroundedOverRuns(lane: Lane, s: State, ticks: seq<Tick>)
    requires BeforeFence(lane, s.h)
    ensures Grounded(lane, s, ticks)
  {
    hide Stamped;
    if ticks != [] {
      var n := |ticks| - 1;
      GroundedOverRuns(lane, s, ticks[..n]);
      assert ticks == ticks[..n] + [ticks[n]];
      GroundedStays(lane, s, ticks[..n], ticks[n]);
    }
  }

  /** Over any run of either lane the primary is destroyed, and the migration declared
      done, only behind a fence that opened over work that can come back or over a lost
      primary, only once the understudy was seen to produce behind that very fence, and
      only in an attempt that had seen it live with the checkpoint pulled. */
  lemma PrimaryIsSpentOnProof(lane: Lane, s: State, ticks: seq<Tick>, t: Tick)
    requires BeforeFence(lane, s.h)
    requires var a := ActionAt(lane, TicksAfter(lane, s, ticks).h, t); a.DrainPrimary? || a.Complete?
    ensures exists j :: OpenSince(lane, s, ticks, j)
    ensures t.producingSignal || exists j :: ProvedSince(lane, s, ticks, j)
    ensures AtStart(s.h) ==> exists j :: PulledSince(lane, s, ticks, j)
  {
    hide HandoffPoll, Observe, TicksAfter, OpenSince, ProvedSince, PulledSince;
    var h := TicksAfter(lane, s, ticks).h;
    GroundedOverRuns(lane, s, ticks);
    ObservingKeepsStamps(lane, h, t);
    PollTiming(ViewOf(lane, Observe(lane, h, t), t));
    if AtStart(s.h) {
      BackedOverRuns(lane, s, ticks);
    }
  }

  /** What the events between do to the understudy, the last word counting. */
  function LeftUp(up: bool, events: seq<Event>): bool {
    if events == [] then up
    else
      match events[|events| - 1]
      case UnderstudyStops => false
      case UnderstudyComesBack => true
      case _ => LeftUp(up, events[..|events| - 1])
  }

  /** The fence is open throughout. */
  predicate OpenThroughout(lane: Lane, s: State, events: seq<Event>) {
    forall k :: 0 <= k <= |events| ==> FenceOpen(StateAfter(lane, s, events[..k]).h.phase)
  }

  /** Behind an open fence no tick switches the understudy on or off. */
  lemma OpenTickKeepsUnderstudy(lane: Lane, h: Hf, b: Boxes, t: Tick)
    requires FenceOpen(h.phase) && FenceOpen(TickEffect(lane, h, b, t).h.phase)
    ensures TickEffect(lane, h, b, t).post.understudyOn == b.understudyOn
  {
    hide HandoffPoll, Observe, Elapsed, Execute;
    ObservingKeepsStamps(lane, h, t);
    PollTiming(ViewOf(lane, Observe(lane, h, t), t));
    ExecutingKeepsUnderstudy(lane, Observe(lane, h, t), b, ActionAt(lane, h, t), t);
  }

  lemma ExecutingKeepsUnderstudy(lane: Lane, h: Hf, b: Boxes, a: Action, t: Tick)
    requires FenceOpen(Execute(lane, h, b, a, t).h.phase) && !a.LaunchUnderstudy?
    ensures Execute(lane, h, b, a, t).post.understudyOn == b.understudyOn
  {
    hide Reaped, Unfenced, MovedBack, Promoted;
  }

  lemma EventLeavesUp(lane: Lane, s: State, e: Event)
    requires FenceOpen(s.h.phase) && FenceOpen(NextState(lane, s, e).h.phase)
    ensures NextState(lane, s, e).b.understudyOn ==
            if e.UnderstudyStops? then false else if e.UnderstudyComesBack? then true else s.b.understudyOn
  {
    hide TickEffect, FenceOpen;
    if e.TickEvent? {
      OpenTickKeepsUnderstudy(lane, s.h, s.b, e.t);
    }
  }

  lemma {:induction false} UnderstudyIsLeftUp(lane: Lane, s: State, events: seq<Event>)
    requires OpenThroughout(lane, s, events)
    ensures StateAfter(lane, s, events).b.understudyOn == LeftUp(s.b.understudyOn, events)
  {
    hide FenceOpen, NextState;
    if events != [] {
      var n := |events| - 1;
      var before, e := events[..n], events[n];
      forall k | 0 <= k <= n ensures before[..k] == events[..k] {
      }
      assert events[..n + 1] == events;
      UnderstudyIsLeftUp(lane, s, before);
      assert FenceOpen(StateAfter(lane, s, events[..n]).h.phase);
      assert FenceOpen(StateAfter(lane, s, events[..n + 1]).h.phase);
      EventLeavesUp(lane, StateAfter(lane, s, before), e);
    }
  }

  /** Proof of life is remembered, life is not looked at: the tick that destroys the
      primary leaves a box on exactly when the understudy has not stopped for good since,
      whatever the listing shows of it. */
  lemma PrimaryIsSpentBlindly(lane: Lane, s: State, events: seq<Event>, t: Tick)
    requires OpenThroughout(lane, s, events)
    requires var p := StateAfter(lane, s, events); ActionAt(lane, p.h, t).DrainPrimary? && t.drainOk
    ensures var p := StateAfter(lane, s, events);
            var post := TickEffect(lane, p.h, p.b, t).post;
            && !post.primaryHere && !post.primaryOn
            && (post.understudyOn <==> LeftUp(s.b.understudyOn, events))
            && (Honest(p.b, t) && t.sighting.Listed? ==> (post.understudyOn <==> t.sighting.live))
  {
    hide HandoffPoll, Observe, OpenThroughout, StateAfter;
    var p := StateAfter(lane, s, events);
    UnderstudyIsLeftUp(lane, s, events);
    ObservingKeepsStamps(lane, p.h, t);
    PollTiming(ViewOf(lane, Observe(lane, p.h, t), t));
  }

  /** Listed dead, with its proof on record, the understudy still costs the primary. */
  lemma DeadUnderstudyStillSpends(lane: Lane, h: Hf, b: Boxes, t: Tick)
    requires h.phase == Draining && h.producing && !h.primaryGone && !(lane == JobsLane && h.retargetIncomplete)
    requires Honest(b, t) && t.sighting == Listed(false, false) && t.drainOk
    ensures ActionAt(lane, h, t) == DrainPrimary
    ensures var post := TickEffect(lane, h, b, t).post; !post.primaryOn && !post.understudyOn
  {
    hide HandoffPoll;
    PollTiming(ViewOf(lane, Observe(lane, h, t), t));
  }

  lemma {:induction false} CutoversAreOffered(lane: Lane, s: State, startedAt: real, ticks: seq<Tick>, gap: real)
    requires BeforeFence(lane, s.h) && Regular(startedAt, ticks, gap) && gap <= HANDOFF_FENCE_TIMEOUT_S
    ensures CutoverOffered(lane, TicksAfter(lane, s, ticks).h, if ticks == [] then startedAt else ticks[|ticks| - 1].now)
  {
    hide TickEffect, CutoverOffered, Stamped;
    if ticks == [] {
      assert CutoverOffered(lane, s.h, startedAt) by { NoCutoverYet(lane, s.h, startedAt); }
    } else {
      var n := |ticks| - 1;
      var before := ticks[..n];
      CutoversAreOffered(lane, s, startedAt, before, gap);
      GroundedOverRuns(lane, s, before);
      var p := TicksAfter(lane, s, before);
      assert n > 0 ==> before[n - 1] == ticks[n - 1];
      UnwindFollowsAnOfferedCutover(lane, p.h, p.b, ticks[n], if n == 0 then startedAt else ticks[n - 1].now);
    }
  }

  lemma NoCutoverYet(lane: Lane, h: Hf, now: real)
    requires h.phase != Cutover
    ensures CutoverOffered(lane, h, now)
  {
  }

  /** Over any run whose ticks are at most the flush timeout apart, a fence is unwound
      only after an earlier tick of that very fence offered the cutover and found a
      ticket it could not delete. The run lane, which deletes none, never unwinds. */
  lemma UnwindFollowsAStuckCutover(lane: Lane, s: State, startedAt: real, ticks: seq<Tick>, t: Tick, gap: real)
    requires BeforeFence(lane, s.h) && gap <= HANDOFF_FENCE_TIMEOUT_S && Regular(startedAt, ticks + [t], gap)
    requires ActionAt(lane, TicksAfter(lane, s, ticks).h, t) == AbortUnfence(FenceUnwind)
    ensures lane == JobsLane && exists j :: StuckSince(lane, s, ticks, j)
  {
    hide HandoffPoll, Observe, TicksAfter, CutoverOffered, StuckSince, OpenSince, ProvedSince, Stamped;
    var n := |ticks|;
    assert (ticks + [t])[..n] == ticks;
    assert n > 0 ==> (ticks + [t])[n - 1] == ticks[n - 1];
    var p := TicksAfter(lane, s, ticks);
    CutoversAreOffered(lane, s, startedAt, ticks, gap);
    GroundedOverRuns(lane, s, ticks);
    UnwindFollowsAnOfferedCutover(lane, p.h, p.b, t, if n == 0 then startedAt else ticks[n - 1].now);
    ObservingKeepsStamps(lane, p.h, t);
    PollTiming(ViewOf(lane, Observe(lane, p.h, t), t));
  }

  // ---- every phase, told from the tick ------------------------------------------

  /** Moving pays and has been asked for long enough, and nothing forbids it. */
  predicate ArmDue(h: Hf, t: Tick) {
    && h.cooldownUntil <= t.now && h.handoffsDone < 2
    && t.overCeilingStreak > 0
    && (if t.overCeilingSince.Some? then t.now - t.overCeilingSince.value >= 180.0 else t.overCeilingStreak >= 5)
    && (t.work.unsafeOverride || (t.work.driverCanComplete && t.work.runningUnresumable <= 0))
    && Pays(t.money)
  }

  predicate Booting(p: Phase) { p.Launching? || p.Warming? }

  /** What one listing says of the understudy; in the jobs lane a listing that shows
      others but not it counts as gone. */
  predicate LooksDown(lane: Lane, h: Hf, t: Tick) {
    if t.sighting.Listed? then !t.sighting.live
    else (lane == JobsLane && h.launched && !t.sighting.listingEmpty) || h.understudyGone || h.status == SeenDead
  }

  /** What one tick's reads leave on record. */
  lemma ObservedCounts(lane: Lane, h: Hf, t: Tick)
    ensures var seen := Observe(lane, h, t);
            seen.handoffsDone == h.handoffsDone && seen.cooldownUntil == h.cooldownUntil
  {
    hide FenceOpen;
  }

  lemma ObservedSignals(lane: Lane, h: Hf, t: Tick)
    ensures var seen := Observe(lane, h, t);
            && seen.flushSeen == (h.flushSeen || (FenceOpen(h.phase) && t.flushSignal))
            && seen.producing == (h.producing || (FenceOpen(h.phase) && t.producingSignal))
  {
    hide FenceOpen;
  }

  lemma ObservedPull(lane: Lane, h: Hf, t: Tick)
    ensures Observe(lane, h, t).ckptPulled == (h.ckptPulled || (Booting(h.phase) && t.sighting == Listed(true, true)))
  {
    hide FenceOpen;
  }

  lemma ObservedDown(lane: Lane, h: Hf, t: Tick)
    ensures UnderstudyGoneOrDead(Observe(lane, h, t)) == LooksDown(lane, h, t)
    ensures h.launched ==> Observe(lane, h, t).launched
  {
    hide FenceOpen;
  }

  lemma ObservedExactly(lane: Lane, h: Hf, t: Tick)
    ensures var seen := Observe(lane, h, t);
            && seen.phase == h.phase && seen.startedTs == h.startedTs && seen.fenceTs == h.fenceTs
            && seen.drainTs == h.drainTs && seen.retargetIncomplete == h.retargetIncomplete
            && seen.primaryGone == h.primaryGone
            && seen.handoffsDone == h.handoffsDone && seen.cooldownUntil == h.cooldownUntil
            && seen.flushSeen == (h.flushSeen || (FenceOpen(h.phase) && t.flushSignal))
            && seen.producing == (h.producing || (FenceOpen(h.phase) && t.producingSignal))
            && seen.ckptPulled == (h.ckptPulled || (Booting(h.phase) && t.sighting == Listed(true, true)))
            && UnderstudyGoneOrDead(seen) == LooksDown(lane, h, t)
            && (h.launched ==> seen.launched)
  {
    hide Observe, FenceOpen, Booting, LooksDown, UnderstudyGoneOrDead;
    ObservingKeepsStamps(lane, h, t);
    ObservedCounts(lane, h, t);
    ObservedSignals(lane, h, t);
    ObservedPull(lane, h, t);
    ObservedDown(lane, h, t);
  }

  /** What each action leaves on record. */
  lemma ExecutedExactly(lane: Lane, h: Hf, b: Boxes, a: Action, t: Tick)
    ensures var e := Execute(lane, h, b, a, t).h;
            match a
            case Noop => e == h
            case WarmWait => e == h
            case Arm => e == h.(phase := Armed, startedTs := Some(t.now))
            case LaunchUnderstudy =>
              e.phase == (if t.launch == Launched then Launching
                          else if t.launch == PutFailed && lane == RunLane then h.phase else Idle)
              && (e.ckptPulled ==> h.ckptPulled)
            case MarkSynced => e == h.(phase := Synced)
            case FencePrimary => e == h.(phase := Cutover, fenceTs := Some(t.now))
            case ResumeUnderstudy(how) =>
              e.phase == (if lane == JobsLane && t.retargetStuck && how != FastCutover then h.phase else Draining)
            case DrainPrimary =>
              e == h.(primaryGone := h.primaryGone || (t.drainOk && !(lane == JobsLane && h.retargetIncomplete)))
            case Complete => e.phase == Idle && e.handoffsDone == h.handoffsDone + 1 && !e.ckptPulled
            case AbortReap(_) => e.phase == Idle && e.handoffsDone == h.handoffsDone && !e.ckptPulled
            case AbortUnfence(_) => e.phase == Idle && e.handoffsDone == h.handoffsDone && !e.ckptPulled
  {
    hide Reaped, Unfenced, MovedBack, Promoted, ResumedBoxes, Fenced;
  }

  lemma IdleActs(lane: Lane, h: Hf, t: Tick)
    requires h.phase == Idle
    ensures ActionAt(lane, h, t) == if ArmDue(h, t) then Arm else Noop
  {
    hide HandoffPoll, Pays, Observe;
    ObservedExactly(lane, h, t);
    IdleAnswers(ViewOf(lane, Observe(lane, h, t), t));
  }

  lemma IdleArmsExactly(lane: Lane, h: Hf, b: Boxes, t: Tick)
    requires h.phase == Idle
    ensures TickEffect(lane, h, b, t).h.phase == if ArmDue(h, t) then Armed else Idle
    ensures ArmDue(h, t) ==> TickEffect(lane, h, b, t).h.startedTs == Some(t.now)
  {
    hide ActionAt, ArmDue, Execute, Observe;
    IdleActs(lane, h, t);
    ObservedExactly(lane, h, t);
    ExecutedExactly(lane, Observe(lane, h, t), b, ActionAt(lane, h, t), t);
  }

  /** Launching: an attempt is given up on a lost primary or half an hour after it was
      armed, and otherwise goes as its launch goes. */
  lemma ArmedMovesExactly(lane: Lane, h: Hf, b: Boxes, t: Tick)
    requires h.phase == Armed
    ensures TickEffect(lane, h, b, t).h.phase ==
              if t.primaryEvicted || Late(h.startedTs, t.now, 1800.0) then Idle
              else if t.launch == Launched then Launching
              else if t.launch == PutFailed && lane == RunLane then Armed
              else Idle
  {
    hide HandoffPoll, Late, Observe, Execute, LooksDown;
    var seen := Observe(lane, h, t);
    ObservedExactly(lane, h, t);
    ArmedAnswers(ViewOf(lane, seen, t));
    ExecutedExactly(lane, seen, b, ActionAt(lane, h, t), t);
  }

  /** Booting: synced by a live, synced sighting and by nothing else. */
  lemma BootingMovesExactly(lane: Lane, h: Hf, b: Boxes, t: Tick)
    requires h.phase.Launching? || h.phase.Warming?
    ensures var e := TickEffect(lane, h, b, t).h;
            && e.phase == (if t.primaryEvicted || Late(h.startedTs, t.now, 1800.0) then Idle
                           else if h.ckptPulled || t.sighting == Listed(true, true) then Synced
                           else h.phase)
            && (e.phase == h.phase ==> !e.ckptPulled)
  {
    hide HandoffPoll, Late, Observe, Execute, LooksDown;
    var seen := Observe(lane, h, t);
    ObservedExactly(lane, h, t);
    BootingAnswers(ViewOf(lane, seen, t));
    ExecutedExactly(lane, seen, b, ActionAt(lane, h, t), t);
  }

  /** Synced: cut over at once to a lost primary; else given up when late; else held while
      something unresumable runs, a job has under twenty minutes left or the checkpoint is
      stale; else fenced. */
  lemma SyncedMovesExactly(lane: Lane, h: Hf, b: Boxes, t: Tick)
    requires h.phase == Synced
    ensures TickEffect(lane, h, b, t).h.phase ==
              if t.primaryEvicted then Draining
              else if Late(h.startedTs, t.now, 1800.0) then Idle
              else if t.work.runningUnresumable > 0 || t.work.ckptStale
                      || (t.work.minRunningEtaS.Some? && t.work.minRunningEtaS.value < 1200.0) then Synced
              else Cutover
  {
    hide HandoffPoll, Late, Observe, Execute, LooksDown;
    var seen := Observe(lane, h, t);
    ObservedExactly(lane, h, t);
    SyncedAnswers(ViewOf(lane, seen, t));
    ExecutedExactly(lane, seen, b, ActionAt(lane, h, t), t);
  }

  /** Cutover: unwound after half an hour; promoted on the flush or after a quarter of an
      hour, unless the jobs lane cannot delete a ticket. */
  lemma CutoverMovesExactly(lane: Lane, h: Hf, b: Boxes, t: Tick)
    requires h.phase == Cutover
    ensures TickEffect(lane, h, b, t).h.phase ==
              if Late(h.fenceTs, t.now, 1800.0) then Idle
              else if h.flushSeen || t.flushSignal || Late(h.fenceTs, t.now, 900.0) then
                if lane == JobsLane && t.retargetStuck then Cutover else Draining
              else Cutover
  {
    hide HandoffPoll, Late, Observe, Execute, LooksDown;
    var seen := Observe(lane, h, t);
    ObservedExactly(lane, h, t);
    CutoverAnswers(ViewOf(lane, seen, t));
    ExecutedExactly(lane, seen, b, ActionAt(lane, h, t), t);
  }

  /** Draining: over when the primary is gone behind a proven understudy, or when an
      unproven one looks down or has had half an hour; the primary goes behind a proven one. */
  lemma DrainingMovesExactly(lane: Lane, h: Hf, b: Boxes, t: Tick)
    requires h.phase == Draining
    ensures var e := TickEffect(lane, h, b, t).h;
            var proven := (h.producing || t.producingSignal) && !(lane == JobsLane && h.retargetIncomplete);
            && e.phase == (if proven then if h.primaryGone then Idle else Draining
                           else if LooksDown(lane, h, t) || Late(h.drainTs, t.now, 1800.0) then Idle
                           else Draining)
            && (e.phase == Draining ==> e.primaryGone == (h.primaryGone || (proven && t.drainOk)))
            && e.handoffsDone == (if proven && h.primaryGone then h.handoffsDone + 1 else h.handoffsDone)
  {
    hide HandoffPoll, Late, Observe, Execute, LooksDown;
    var seen := Observe(lane, h, t);
    ObservedExactly(lane, h, t);
    DrainingAnswers(ViewOf(lane, seen, t));
    ExecutedExactly(lane, seen, b, ActionAt(lane, h, t), t);
  }

  /** However an attempt ends, the next is half an hour away. */
  lemma EndsCoolDown(lane: Lane, h: Hf, b: Boxes, t: Tick)
    requires h.phase != Idle && TickEffect(lane, h, b, t).h.phase == Idle
    ensures TickEffect(lane, h, b, t).h.cooldownUntil == t.now + 1800.0
    ensures TickEffect(lane, h, b, t).h == Reset(TickEffect(lane, h, b, t).h.handoffsDone, t.now + 1800.0)
  {
    hide HandoffPoll, Observe, Reaped, Unfenced, MovedBack, Promoted, ResumedBoxes, Fenced;
    ObservingKeepsStamps(lane, h, t);
    PollTiming(ViewOf(lane, Observe(lane, h, t), t));
  }

  /** What each action does to the two boxes. In the run lane the primary's claim stands and
      a promotion adds the understudy's; in the jobs lane claims are tickets, which a stuck
      cutover leaves where they were. */
  lemma BoxesMoveExactly(lane: Lane, h: Hf, b: Boxes, a: Action, t: Tick)
    ensures var e := Execute(lane, h, b, a, t).post;
            match a
            case LaunchUnderstudy =>
              e == if t.launch == Launched then b.(understudyHere := true, understudyOn := true)
                   else if (t.launch == PutFailed && lane == RunLane) || !t.reapOk then b
                   else b.(understudyHere := false, understudyOn := false, understudyClaims := false)
            case FencePrimary => e == b.(primaryOn := b.primaryOn && !t.parkOk, primaryPinned := b.primaryPinned || t.pinOk)
            case ResumeUnderstudy(how) =>
              e == b.(understudyClaims := true,
                      primaryClaims := b.primaryClaims
                                       && (lane == RunLane || t.claimLeft || (t.retargetStuck && how != FastCutover)),
                      primaryPinned := b.primaryPinned || (lane == JobsLane && how == FastCutover && t.pinOk))
            case DrainPrimary =>
              e == if t.drainOk && !(lane == JobsLane && h.retargetIncomplete)
                   then b.(primaryHere := false, primaryOn := false) else b
            case Complete => e == Boxes(b.understudyHere, b.understudyOn, false, true, false, false, false)
            case AbortReap(_) =>
              e == if t.reapOk then b.(understudyHere := false, understudyOn := false, understudyClaims := false) else b
            case AbortUnfence(_) =>
              var back := lane == JobsLane && t.retargetBackOk;
              var given := b.primaryHere && t.bidKnown;
              && e.primaryHere == b.primaryHere
              && e.primaryOn == (b.primaryOn || (given && t.resumeOk))
              && e.primaryPinned == (b.primaryPinned && !(given && t.bidOk))
              && e.primaryClaims == (b.primaryClaims || back)
              && e.understudyHere == (b.understudyHere && !t.reapOk)
              && e.understudyOn == (b.understudyOn && !t.reapOk)
              && e.understudyClaims == (b.understudyClaims && !back && !t.reapOk)
            case _ => e == b
  {
    hide ResumedHf, Aborted;
  }

  // ---- no fence without a checkpoint ------------------------------------------------

  /** Tick `j` saw the booting understudy live and synced, and the attempt goes on still. */
  predicate PulledSince(lane: Lane, s: State, ticks: seq<Tick>, j: nat) {
    && j < |ticks| && Booting(PhaseAfter(lane, s, ticks, j)) && ticks[j].sighting == Listed(true, true)
    && forall k :: j <= k <= |ticks| ==> PhaseAfter(lane, s, ticks, k) != Idle
  }

  /** At rest or just armed, with no checkpoint on record. */
  predicate AtStart(h: Hf) { (h.phase.Idle? || h.phase.Armed?) && !h.ckptPulled }

  ghost predicate Backed(lane: Lane, s: State, ticks: seq<Tick>) {
    var h := TicksAfter(lane, s, ticks).h;
    && (h.phase.Idle? || h.phase.Armed? || Booting(h.phase) ==> !h.ckptPulled)
    && (h.phase == Synced || FenceOpen(h.phase) ==> exists j :: PulledSince(lane, s, ticks, j))
  }

  /** How each tick comes by the phases past booting. */
  lemma PulledComesFrom(lane: Lane, h: Hf, b: Boxes, t: Tick)
    requires h.phase.Idle? || h.phase.Armed? || Booting(h.phase) ==> !h.ckptPulled
    ensures var e := TickEffect(lane, h, b, t).h;
            && (e.phase.Idle? || e.phase.Armed? || Booting(e.phase) ==> !e.ckptPulled)
            && (e.phase == Synced || FenceOpen(e.phase) ==>
                  || h.phase == Synced || FenceOpen(h.phase)
                  || (Booting(h.phase) && t.sighting == Listed(true, true)))
  {
    hide TickEffect, ArmDue, Late;
    KeepsUnpulled(lane, h, b, t);
    match h.phase
    case Idle => IdleArmsExactly(lane, h, b, t);
    case Armed => ArmedMovesExactly(lane, h, b, t);
    case Launching => BootingMovesExactly(lane, h, b, t);
    case Warming => BootingMovesExactly(lane, h, b, t);
    case _ =>
  }

  /** An attempt that is over, or not yet synced, has no checkpoint on record. */
  lemma KeepsUnpulled(lane: Lane, h: Hf, b: Boxes, t: Tick)
    requires h.phase.Idle? || h.phase.Armed? || Booting(h.phase) ==> !h.ckptPulled
    ensures var e := TickEffect(lane, h, b, t).h;
            e.phase.Idle? || e.phase.Armed? || Booting(e.phase) ==> !e.ckptPulled
  {
    hide HandoffPoll, Observe, Execute, LooksDown, Elapsed;
    var seen := Observe(lane, h, t);
    ObservedExactly(lane, h, t);
    PollTiming(ViewOf(lane, seen, t));
    if Booting(h.phase) {
      BootingAnswers(ViewOf(lane, seen, t));
    }
    ExecutedExactly(lane, seen, b, ActionAt(lane, h, t), t);
  }

  lemma BackedStays(lane: Lane, s: State, ticks: seq<Tick>, t: Tick)
    requires Backed(lane, s, ticks)
    ensures Backed(lane, s, ticks + [t])
  {
    hide TickEffect, TicksAfter, PhaseAfter, FenceOpen, Booting;
    var n, more := |ticks|, ticks + [t];
    var p, q := TicksAfter(lane, s, ticks), TicksAfter(lane, s, more);
    TickAfterLast(lane, s, ticks, t);
    PulledComesFrom(lane, p.h, p.b, t);
    forall k: nat | k <= n ensures PhaseAfter(lane, s, more, k) == PhaseAfter(lane, s, ticks, k) {
      PrefixSame(lane, s, ticks, t, k);
    }
    PrefixSame(lane, s, ticks, t, n);
    if q.h.phase == Synced || FenceOpen(q.h.phase) {
      NotIdle(q.h.phase);
      NotIdle(p.h.phase);
      if p.h.phase == Synced || FenceOpen(p.h.phase) {
        var j :| PulledSince(lane, s, ticks, j);
        assert PulledSince(lane, s, more, j);
      } else {
        assert PulledSince(lane, s, more, n);
      }
    }
  }

  lemma NotIdle(p: Phase)
    ensures p == Synced || FenceOpen(p) || Booting(p) ==> p != Idle
  {
  }

  lemma {:induction false} BackedOverRuns(lane: Lane, s: State, ticks: seq<Tick>)
    requires AtStart(s.h)
    ensures Backed(lane, s, ticks)
  {
    if ticks != [] {
      var n := |ticks| - 1;
      BackedOverRuns(lane, s, ticks[..n]);
      assert ticks == ticks[..n] + [ticks[n]];
      BackedStays(lane, s, ticks[..n], ticks[n]);
    }
  }

  /** Over any run of either lane from rest or from arming: the attempt is synced, or the
      fence open, only if an earlier tick of that very attempt saw the booting understudy
      live with the checkpoint pulled. And a booting attempt is synced by a tick exactly
      when that tick sees it so, with the primary not lost and the attempt under half an
      hour old. */
  lemma SyncedOnACheckpoint(lane: Lane, s: State, ticks: seq<Tick>, t: Tick)
    requires AtStart(s.h)
    ensures PhaseAfter(lane, s, ticks, |ticks|) == Synced || FenceOpen(PhaseAfter(lane, s, ticks, |ticks|))
            ==> exists j :: PulledSince(lane, s, ticks, j)
    ensures Booting(PhaseAfter(lane, s, ticks, |ticks|)) ==>
              (PhaseAfter(lane, s, ticks + [t], |ticks| + 1) == Synced
               <==> t.sighting == Listed(true, true) && !t.primaryEvicted
                    && !Late(TicksAfter(lane, s, ticks).h.startedTs, t.now, 1800.0))
  {
    hide TickEffect, TicksAfter, PhaseAfter, Late, PulledSince, FenceOpen;
    var p := TicksAfter(lane, s, ticks);
    BackedOverRuns(lane, s, ticks);
    PrefixSame(lane, s, ticks, t, |ticks|);
    TickAfterLast(lane, s, ticks, t);
    if Booting(p.h.phase) {
      BootingMovesExactly(lane, p.h, p.b, t);
    }
  }

  // ---- the jobs lane has no drain deadline ----------------------------------

  /** The one way out of draining in the jobs lane: the understudy is seen dead, or
      it produced, no ticket is stuck and the primary is gone. */
  predicate DrainExit(h: Hf, t: Tick) {
    var seen := Observe(JobsLane, h, t);
    || (UnderstudyGoneOrDead(seen) && !(seen.producing && !seen.retargetIncomplete))
    || (seen.producing && !seen.retargetIncomplete && seen.primaryGone)
  }

  predicate UnderstudyGoneOrDead(h: Hf) { h.understudyGone || h.status == SeenDead }

  lemma JobsDrainExitsExactly(h: Hf, b: Boxes, t: Tick)
    requires Stamped(JobsLane, h) && h.phase == Draining
    ensures TickEffect(JobsLane, h, b, t).h.phase == Draining <==> !DrainExit(h, t)
    ensures TickEffect(JobsLane, h, b, t).h.phase == Draining ==>
              TickEffect(JobsLane, h, b, t).h.retargetIncomplete == h.retargetIncomplete
  {
    hide HandoffPoll;
    PollTiming(ViewOf(JobsLane, Observe(JobsLane, h, t), t));
  }

  predicate SilentButAlive(t: Tick) {
    !t.producingSignal && (t.sighting.Listed? ==> t.sighting.live) && (t.sighting.NotListed? ==> t.sighting.listingEmpty)
  }

  /** So an understudy that stays up and never produces holds a jobs-lane migration
      open for as long as one cares to wait, its primary parked throughout. */
  lemma {:induction false} JobsDrainNeverExpires(s: State, ticks: seq<Tick>)
    requires Stamped(JobsLane, s.h) && s.h.phase == Draining
    requires !s.h.producing && !UnderstudyGoneOrDead(s.h)
    requires forall t :: t in ticks ==> SilentButAlive(t)
    ensures var h := TicksAfter(JobsLane, s, ticks).h;
            && Stamped(JobsLane, h) && h.phase == Draining && !h.producing && !UnderstudyGoneOrDead(h)
  {
    hide TickEffect, SilentButAlive;
    if ticks != [] {
      var n := |ticks| - 1;
      assert ticks[n] in ticks;
      JobsDrainNeverExpires(s, ticks[..n]);
      var p := TicksAfter(JobsLane, s, ticks[..n]);
      SilentTickStays(p.h, p.b, ticks[n]);
    }
  }

  lemma SilentTickStays(h: Hf, b: Boxes, t: Tick)
    requires Stamped(JobsLane, h) && h.phase == Draining
    requires !h.producing && !UnderstudyGoneOrDead(h) && SilentButAlive(t)
    ensures var e := TickEffect(JobsLane, h, b, t).h;
            Stamped(JobsLane, e) && e.phase == Draining && !e.producing && !UnderstudyGoneOrDead(e)
  {
    hide HandoffPoll;
    PollTiming(ViewOf(JobsLane, Observe(JobsLane, h, t), t));
  }

  /** The listing shows the understudy dead, or shows everything but it. */
  predicate SeenDown(t: Tick) {
    if t.sighting.Listed? then !t.sighting.live else !t.sighting.listingEmpty
  }

  lemma StuckTick(h: Hf, b: Boxes, t: Tick)
    requires h.phase == Draining && h.retargetIncomplete && h.launched && !UnderstudyGoneOrDead(h) && h.drainTs.None?
    ensures var e := TickEffect(JobsLane, h, b, t);
            && (e.h.phase == Draining <==> !SeenDown(t))
            && (e.h.phase == Draining ==>
                  e.h.retargetIncomplete && e.h.launched && !UnderstudyGoneOrDead(e.h)
                  && e.h.drainTs == h.drainTs && e.post == b)
  {
    hide HandoffPoll, Observe, LooksDown, Reaped, Unfenced, MovedBack, Promoted, ResumedBoxes, ResumedHf;
    var seen := Observe(JobsLane, h, t);
    ObservedExactly(JobsLane, h, t);
    DrainingAnswers(ViewOf(JobsLane, seen, t));
    assert LooksDown(JobsLane, h, t) == SeenDown(t) by { LooksAsSeen(h, t); }
  }

  lemma LooksAsSeen(h: Hf, t: Tick)
    requires h.launched && !UnderstudyGoneOrDead(h)
    ensures LooksDown(JobsLane, h, t) == SeenDown(t)
  {
  }

  /** A ticket that could not be deleted once is never forgotten: over any number of ticks
      a cutover that succeeds later drains on, produce as it may, exactly as long as the
      understudy is not seen down, and both boxes stay as they are. */
  lemma {:induction false} StuckTicketNeverDrains(s: State, ticks: seq<Tick>)
    requires s.h.phase == Draining && s.h.retargetIncomplete && s.h.drainTs.None?
    requires s.h.launched && !UnderstudyGoneOrDead(s.h)
    ensures (forall k :: 0 <= k <= |ticks| ==> PhaseAfter(JobsLane, s, ticks, k) == Draining)
            <==> (forall k :: 0 <= k < |ticks| ==> !SeenDown(ticks[k]))
    ensures (forall k :: 0 <= k < |ticks| ==> !SeenDown(ticks[k])) ==>
              var e := TicksAfter(JobsLane, s, ticks);
              && e.b == s.b && e.h.phase == Draining && e.h.retargetIncomplete && e.h.drainTs.None?
              && e.h.launched && !UnderstudyGoneOrDead(e.h)
  {
    hide TickEffect, SeenDown;
    var n := |ticks|;
    if n == 0 {
      assert PhaseAfter(JobsLane, s, ticks, 0) == Draining by { assert ticks[..0] == []; }
    } else {
      var before, t := ticks[..n - 1], ticks[n - 1];
      StuckTicketNeverDrains(s, before);
      assert ticks == before + [t];
      forall k: nat | k <= n - 1 ensures PhaseAfter(JobsLane, s, ticks, k) == PhaseAfter(JobsLane, s, before, k) {
        PrefixSame(JobsLane, s, before, t, k);
      }
      TickAfterLast(JobsLane, s, before, t);
      var p := TicksAfter(JobsLane, s, before);
      if forall k :: 0 <= k < n - 1 ==> !SeenDown(before[k]) {
        StuckTick(p.h, p.b, t);
      }
    }
  }
}
