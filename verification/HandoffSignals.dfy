/** The run lane's box-side signals, read from the run's whole event log, and what
    they prove about the understudy (tools/vast/vastlib/supervise/handoff.py). */
module HandoffSignals {
  import opened Money
  import opened HandoffCore
  import opened HandoffDriver

  datatype Kind = FinalFlush | Checkpoint | Other

  /** Stamps are the log's own compact timestamps, compared as the source does. */
  datatype LogEvent = LogEvent(kind: Kind, ts: int, byUnderstudy: bool)

  datatype Signals = Signals(flush: bool, producing: bool)

  predicate FlushThenCheckpoint(log: seq<LogEvent>) {
    exists i, j :: 0 <= i < j < |log| && log[i].kind == FinalFlush && log[j].kind == Checkpoint
  }

  predicate CheckpointAfter(log: seq<LogEvent>, cutover: Option<int>) {
    cutover.Some? && exists k :: 0 <= k < |log| && log[k].kind == Checkpoint && log[k].ts > cutover.value
  }

  function SignalsOf(log: seq<LogEvent>, cutover: Option<int>): Signals {
    Signals(exists i :: 0 <= i < |log| && log[i].kind == FinalFlush,
            FlushThenCheckpoint(log) || CheckpointAfter(log, cutover))
  }

  method RunSignals(log: seq<LogEvent>, cutover: Option<int>) returns (s: Signals)
    ensures s == SignalsOf(log, cutover)
  {
    var flush := false;
    for i := 0 to |log|
      invariant flush <==> exists k :: 0 <= k < i && log[k].kind == FinalFlush
    {
      if log[i].kind == FinalFlush {
        flush := true;
      }
    }
    var producing := false;
    if flush {
      var seen := false;
      var i := 0;
      while i < |log| && !producing
        invariant 0 <= i <= |log|
        invariant seen <==> exists k :: 0 <= k < i && log[k].kind == FinalFlush
        invariant producing <==> exists k, j :: 0 <= k < j < i && log[k].kind == FinalFlush && log[j].kind == Checkpoint
      {
        if log[i].kind == FinalFlush {
          seen := true;
        } else if seen && log[i].kind == Checkpoint {
          producing := true;
        }
        i := i + 1;
      }
    }
    if !producing && cutover.Some? {
      for i := 0 to |log|
        invariant producing <==> exists k :: 0 <= k < i && log[k].kind == Checkpoint && log[k].ts > cutover.value
      {
        if log[i].kind == Checkpoint && log[i].ts > cutover.value {
          producing := true;
        }
      }
    }
    return Signals(flush, producing);
  }

  /** The log at the fence: nothing by the understudy, nothing stamped past the
      promotion; what follows is checkpointed by the understudy alone, since the
      parked primary no longer writes. */
  predicate AtFence(before: seq<LogEvent>, after: seq<LogEvent>, cutover: Option<int>) {
    && (forall i :: 0 <= i < |before| ==> !before[i].byUnderstudy && (cutover.Some? ==> before[i].ts <= cutover.value))
    && (forall i :: 0 <= i < |after| && after[i].kind == Checkpoint ==> after[i].byUnderstudy)
  }

  predicate UnderstudyCheckpointed(log: seq<LogEvent>) {
    exists i :: 0 <= i < |log| && log[i].kind == Checkpoint && log[i].byUnderstudy
  }

  /** The producing signal is proof of life exactly when the run's log held no
      final flush followed by a checkpoint before the fence opened: without one it
      never fires before the understudy has checkpointed, with one it fires at
      once, whatever the understudy does. */
  lemma ProofOfLifeExactly(before: seq<LogEvent>, after: seq<LogEvent>, cutover: Option<int>)
    requires AtFence(before, after, cutover)
    ensures FlushThenCheckpoint(before) <==> SignalsOf(before, None).producing
    ensures FlushThenCheckpoint(before) ==> SignalsOf(before + after, cutover).producing
    ensures !FlushThenCheckpoint(before) && SignalsOf(before + after, cutover).producing
            ==> UnderstudyCheckpointed(after)
  {
    var log, n := before + after, |before|;
    assert forall k :: 0 <= k < n ==> log[k] == before[k];
    if FlushThenCheckpoint(before) {
      var i, j :| 0 <= i < j < n && before[i].kind == FinalFlush && before[j].kind == Checkpoint;
      assert log[i] == before[i] && log[j] == before[j];
    } else if FlushThenCheckpoint(log) {
      var i, j :| 0 <= i < j < |log| && log[i].kind == FinalFlush && log[j].kind == Checkpoint;
      assert j >= n;
      assert after[j - n] == log[j];
    } else if CheckpointAfter(log, cutover) {
      var k :| 0 <= k < |log| && log[k].kind == Checkpoint && log[k].ts > cutover.value;
      assert k >= n;
      assert after[k - n] == log[k];
    }
  }

  /** So a run that was once flushed and resumed loses its primary on the second
      tick after the fence: no wait, and no sign of life from the understudy. */
  lemma StaleFlushDrainsAtOnce(before: seq<LogEvent>, h: Hf, b: Boxes, first: Tick, second: Tick)
    requires FlushThenCheckpoint(before) && Stamped(RunLane, h)
    requires h.phase == Cutover && !h.primaryGone && b.primaryHere
    requires !Elapsed(h.fenceTs, first.now, HANDOFF_FENCE_UNWIND_S)
    requires Signals(first.flushSignal, first.producingSignal) == SignalsOf(before, None)
    requires second.drainOk
    ensures var e := TickEffect(RunLane, h, b, first);
            ActionAt(RunLane, h, first) == ResumeUnderstudy(PostFlush)
            && ActionAt(RunLane, e.h, second) == DrainPrimary
            && !TickEffect(RunLane, e.h, e.post, second).post.primaryHere
  {
    hide TickEffect, ActionAt;
    var i, j :| 0 <= i < j < |before| && before[i].kind == FinalFlush && before[j].kind == Checkpoint;
    assert first.flushSignal && first.producingSignal;
    FlushedCutover(h, b, first);
    var e := TickEffect(RunLane, h, b, first);
    ProducingDrain(e.h, e.post, second);
  }

  lemma FlushedCutover(h: Hf, b: Boxes, t: Tick)
    requires Stamped(RunLane, h) && h.phase == Cutover && !h.primaryGone && b.primaryHere
    requires !Elapsed(h.fenceTs, t.now, HANDOFF_FENCE_UNWIND_S) && t.flushSignal && t.producingSignal
    ensures ActionAt(RunLane, h, t) == ResumeUnderstudy(PostFlush)
    ensures var e := TickEffect(RunLane, h, b, t);
            e.h.phase == Draining && e.h.producing && !e.h.primaryGone && e.post.primaryHere
  {
    ObservingKeepsStamps(RunLane, h, t);
    var v := ViewOf(RunLane, Observe(RunLane, h, t), t);
    assert HandoffPoll(v) == ResumeUnderstudy(PostFlush) by {
      hide HeadroomOk, CandidateOk, DwellSatisfied, ArmRefused, FenceHeld, Observe;
    }
    hide HandoffPoll;
  }

  lemma ProducingDrain(h: Hf, b: Boxes, t: Tick)
    requires h.phase == Draining && h.producing && !h.primaryGone && t.drainOk
    ensures ActionAt(RunLane, h, t) == DrainPrimary
    ensures !TickEffect(RunLane, h, b, t).post.primaryHere
  {
    hide HandoffPoll;
    ObservingKeepsStamps(RunLane, h, t);
    PollTiming(ViewOf(RunLane, Observe(RunLane, h, t), t));
  }
}
