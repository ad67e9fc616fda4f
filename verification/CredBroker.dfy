/** The credential broker: request policy, both transports, and the replay log
    of the bucket-mediated lane (tools/vast/credbroker.py, credbrokerd.py). */
module CredBroker {
  import opened Money
  import RateLimit

  const REPLAY_WINDOW_S := 600.0

  // ---- policy --------------------------------------------------------------

  datatype Grant = Denied | Allowed(prefix: Option<string>)

  /** The write prefix a role may use; `train` is bucket-wide. */
  function RolePrefix(role: string): Option<Option<string>> {
    if role == "jobs" then Some(Some("jobs/"))
    else if role == "serve" then Some(Some("serve/"))
    else if role == "train" then Some(None)
    else None
  }

  function CheckPolicy(role: string, wanted: Option<string>): Grant {
    var want := if wanted == Some("") then None else wanted;
    match RolePrefix(role)
    case None => Denied
    case Some(None) => if want.None? then Allowed(None) else Denied
    case Some(Some(policy)) =>
      if want.None? then Allowed(Some(policy))
      else if policy <= want.value then Allowed(want)
      else Denied
  }

  /** What each role may ask for: `jobs` and `serve` anything under their own prefix, or
      nothing in particular; `train` nothing in particular. */
  predicate Grantable(role: string, wanted: Option<string>) {
    var plain := wanted.None? || wanted.value == "";
    || (role == "train" && plain)
    || (role == "jobs" && (plain || "jobs/" <= wanted.value))
    || (role == "serve" && (plain || "serve/" <= wanted.value))
  }

  /** And what it is then given: what it asked for, or its whole prefix. */
  lemma PolicyExactly(role: string, wanted: Option<string>)
    ensures CheckPolicy(role, wanted) ==
            if !Grantable(role, wanted) then Denied
            else if role == "train" then Allowed(None)
            else if wanted.None? || wanted.value == "" then Allowed(Some(if role == "jobs" then "jobs/" else "serve/"))
            else Allowed(wanted)
  {
  }

  // ---- what a launch or an administrator recorded ---------------------------

  datatype Instance = Instance(live: bool, role: string, nonce: string)

  datatype Registered = Registered(nonceSha: string, role: string)

  /** The account listing and the admin registry, as one request sees them. */
  datatype World = World(instances: map<int, Instance>, registry: map<int, Registered>)

  /** The role a box may claim, never the one it asserts: the launch record first,
      then the registry; empty when neither names one. */
  function AuthorizedRole(w: World, iid: int): string {
    if iid in w.instances && w.instances[iid].role != "" then w.instances[iid].role
    else if iid in w.registry then w.registry[iid].role
    else ""
  }

  predicate HoldsNonce(w: World, iid: int, nonce: string, sha: string -> string) {
    && iid in w.instances && w.instances[iid].live && nonce != ""
    && (nonce == w.instances[iid].nonce
        || (iid in w.registry && w.registry[iid].nonceSha != "" && sha(nonce) == w.registry[iid].nonceSha))
  }

  // ---- the replay log -------------------------------------------------------

  datatype Log = Log(seen: map<(int, int), real>, issued: map<int, int>)

  function IssuedTs(l: Log, iid: int): int { if iid in l.issued then l.issued[iid] else 0 }

  function Marked(l: Log, iid: int, ts: int, now: real): Log { l.(seen := l.seen[(iid, ts) := now]) }

  function MarkedIssued(l: Log, iid: int, ts: int): Log {
    l.(issued := l.issued[iid := if ts >= IssuedTs(l, iid) then ts else IssuedTs(l, iid)])
  }

  function Pruned(l: Log, cutoff: real): Log {
    l.(seen := map k | k in l.seen && l.seen[k] >= cutoff :: l.seen[k])
  }

  predicate TsFresh(ts: int, now: real) { Abs(now - ts as real) <= REPLAY_WINDOW_S }

  /** The persisted log, updated in place. */
  class CredreqLog {
    var seen: map<(int, int), real>
    var issued: map<int, int>

    ghost function Value(): Log reads this { Log(seen, issued) }

    constructor (persisted: Log)
      ensures Value() == persisted
    {
      seen, issued := persisted.seen, persisted.issued;
    }

    method Mark(iid: int, ts: int, now: real)
      modifies this
      ensures Value() == Marked(old(Value()), iid, ts, now)
    {
      seen := seen[(iid, ts) := now];
    }

    method MarkIssued(iid: int, ts: int)
      modifies this
      ensures Value() == MarkedIssued(old(Value()), iid, ts)
    {
      var high := if iid in issued then issued[iid] else 0;
      issued := issued[iid := if ts >= high then ts else high];
    }

    method Prune(cutoff: real)
      modifies this
      ensures Value() == Pruned(old(Value()), cutoff)
    {
      var todo := seen.Keys;
      while todo != {}
        invariant todo <= old(seen).Keys && issued == old(issued)
        invariant seen == map k | k in old(seen) && (k in todo || old(seen)[k] >= cutoff) :: old(seen)[k]
        decreases todo
      {
        var k :| k in todo;
        if seen[k] < cutoff {
          seen := seen - {k};
        }
        todo := todo - {k};
      }
    }
  }

  // ---- one request on the bucket lane ---------------------------------------

  datatype Credreq = Credreq(pathIid: string, iid: int, iidText: string, ts: int, role: string,
                             proof: string, want: Option<string>)

  /** What the outside answers while one request is handled. */
  datatype Weather = Weather(world: World, now: real, mintOk: bool, deliverOk: bool)

  datatype Reason = PathMismatch | StaleTs | ReplayedTs | UnknownInstance | NotLive | NoLaunchNonce
                  | BadProof | RoleMismatch | Policy | RateLimited | MintFailed

  datatype Verdict = Skipped | Refused(reason: Reason) | Undelivered | Issued

  datatype Replay = Replay(log: Log, stamps: map<int, seq<real>>)

  type Hmac = (string, int, int, string) -> string

  /** The first check that fails, in the order they are made. */
  function Refusal(log: Log, q: Credreq, w: Weather, hmac: Hmac): Option<Reason> {
    if q.iidText != q.pathIid then Some(PathMismatch)
    else if !TsFresh(q.ts, w.now) then Some(StaleTs)
    else if q.ts <= IssuedTs(log, q.iid) then Some(ReplayedTs)
    else if q.iid !in w.world.instances then Some(UnknownInstance)
    else
      var inst := w.world.instances[q.iid];
      if !inst.live then Some(NotLive)
      else if inst.nonce == "" then Some(NoLaunchNonce)
      else if hmac(inst.nonce, q.iid, q.ts, q.role) != q.proof then Some(BadProof)
      else if AuthorizedRole(w.world, q.iid) == "" || q.role != AuthorizedRole(w.world, q.iid) then Some(RoleMismatch)
      else if CheckPolicy(q.role, q.want).Denied? then Some(Policy)
      else None
  }

  datatype Result = Result(replay: Replay, verdict: Verdict)

  function Sweep(r: Replay, q: Credreq, w: Weather, hmac: Hmac): Result {
    if (q.iid, q.ts) in r.log.seen then Result(r, Skipped)
    else
      var log := Pruned(r.log, w.now - 2.0 * REPLAY_WINDOW_S);
      var refusal := Refusal(log, q, w, hmac);
      if refusal.Some? then Result(r.(log := Marked(log, q.iid, q.ts, w.now)), Refused(refusal.value))
      else
        var acquired := RateLimit.Acquire(RateLimit.StampsOf(r.stamps, q.iid), w.now);
        var stamps := r.stamps[q.iid := acquired.stamps];
        if acquired.verdict != RateLimit.Granted then Result(Replay(log, stamps), Refused(RateLimited))
        else if !w.mintOk then Result(Replay(Marked(log, q.iid, q.ts, w.now), stamps), Refused(MintFailed))
        else
          Result(Replay(MarkedIssued(Marked(log, q.iid, q.ts, w.now), q.iid, q.ts), stamps),
                 if w.deliverOk then Issued else Undelivered)
  }

  /** Keys were minted, whether or not the envelope could be delivered. */
  predicate Minted(v: Verdict) { v.Issued? || v.Undelivered? }

  class Broker {
    const credreqs: CredreqLog
    const ratelimit: RateLimit.RateLimiter
    const hmac: Hmac
    const sha: string -> string

    ghost function Value(): Replay
      reads credreqs, ratelimit
    {
      Replay(credreqs.Value(), ratelimit.data)
    }

    constructor (credreqs: CredreqLog, ratelimit: RateLimit.RateLimiter, hmac: Hmac, sha: string -> string)
      ensures this.credreqs == credreqs && this.ratelimit == ratelimit && this.hmac == hmac && this.sha == sha
    {
      this.credreqs, this.ratelimit, this.hmac, this.sha := credreqs, ratelimit, hmac, sha;
    }

    method SweepOne(q: Credreq, w: Weather) returns (verdict: Verdict)
      modifies credreqs, ratelimit
      ensures Result(Value(), verdict) == Sweep(old(Value()), q, w, hmac)
    {
      hide TsFresh, CheckPolicy, AuthorizedRole, Pruned, RateLimit.Acquire;
      if (q.iid, q.ts) in credreqs.seen {
        return Skipped;
      }
      credreqs.Prune(w.now - 2.0 * REPLAY_WINDOW_S);
      var issued := if q.iid in credreqs.issued then credreqs.issued[q.iid] else 0;
      var refusal: Option<Reason> := None;
      if q.iidText != q.pathIid {
        refusal := Some(PathMismatch);
      } else if !TsFresh(q.ts, w.now) {
        refusal := Some(StaleTs);
      } else if q.ts <= issued {
        refusal := Some(ReplayedTs);
      } else if q.iid !in w.world.instances {
        refusal := Some(UnknownInstance);
      } else {
        var inst := w.world.instances[q.iid];
        var granted := AuthorizedRole(w.world, q.iid);
        if !inst.live {
          refusal := Some(NotLive);
        } else if inst.nonce == "" {
          refusal := Some(NoLaunchNonce);
        } else if hmac(inst.nonce, q.iid, q.ts, q.role) != q.proof {
          refusal := Some(BadProof);
        } else if granted == "" || q.role != granted {
          refusal := Some(RoleMismatch);
        } else if CheckPolicy(q.role, q.want).Denied? {
          refusal := Some(Policy);
        }
      }
      if refusal.Some? {
        credreqs.Mark(q.iid, q.ts, w.now);
        return Refused(refusal.value);
      }
      var v := ratelimit.TryAcquire(q.iid, w.now);
      if v != RateLimit.Granted {
        return Refused(RateLimited);       // not remembered: the spacing may clear
      }
      if !w.mintOk {
        credreqs.Mark(q.iid, q.ts, w.now);
        return Refused(MintFailed);
      }
      credreqs.Mark(q.iid, q.ts, w.now);
      credreqs.MarkIssued(q.iid, q.ts);
      return if w.deliverOk then Issued else Undelivered;
    }

    /** The HTTP lane: the presented nonce, then the same role, policy and throttle. */
    method HandleCreds(world: World, now: real, iid: int, nonce: string, role: string, want: Option<string>, mintOk: bool)
      returns (status: int)
      modifies ratelimit
      ensures credreqs.Value() == old(credreqs.Value())
      ensures Http(old(ratelimit.data), world, now, iid, nonce, role, want, mintOk, sha) == (ratelimit.data, status)
    {
      if !HoldsNonce(world, iid, nonce, sha) {
        return 403;
      }
      var granted := AuthorizedRole(world, iid);
      if granted == "" || role != granted {
        return 403;
      }
      if CheckPolicy(role, want).Denied? {
        return 403;
      }
      var v := ratelimit.TryAcquire(iid, now);
      if v != RateLimit.Granted {
        return 429;
      }
      return if mintOk then 200 else 403;
    }
  }

  function Http(stamps: map<int, seq<real>>, world: World, now: real, iid: int, nonce: string, role: string,
                want: Option<string>, mintOk: bool, sha: string -> string): (map<int, seq<real>>, int)
  {
    if !HoldsNonce(world, iid, nonce, sha) || AuthorizedRole(world, iid) == ""
       || role != AuthorizedRole(world, iid) || CheckPolicy(role, want).Denied?
    then (stamps, 403)
    else
      var acquired := RateLimit.Acquire(RateLimit.StampsOf(stamps, iid), now);
      (stamps[iid := acquired.stamps],
       if acquired.verdict != RateLimit.Granted then 429 else if mintOk then 200 else 403)
  }

  // ---- runs: sweeps, HTTP requests and restarts -----------------------------

  datatype Step =
    | SweepStep(q: Credreq, w: Weather)
    | HttpStep(world: World, now: real, iid: int, nonce: string, role: string, want: Option<string>, mintOk: bool)
    | Restart(now: real)

  function Next(r: Replay, s: Step, hmac: Hmac, sha: string -> string): Replay {
    match s
    case SweepStep(q, w) => Sweep(r, q, w, hmac).replay
    case HttpStep(world, now, iid, nonce, role, want, mintOk) =>
      r.(stamps := Http(r.stamps, world, now, iid, nonce, role, want, mintOk, sha).0)
    case Restart(_) => r
  }

  function After(steps: seq<Step>, hmac: Hmac, sha: string -> string): Replay {
    if steps == [] then Replay(Log(map[], map[]), map[])
    else Next(After(steps[..|steps| - 1], hmac, sha), steps[|steps| - 1], hmac, sha)
  }

  predicate MintsAt(r: Replay, s: Step, iid: int, hmac: Hmac) {
    s.SweepStep? && s.q.iid == iid && Minted(Sweep(r, s.q, s.w, hmac).verdict)
  }

  /** The request timestamps that minted for this instance on the bucket lane, in order. */
  function MintedTs(steps: seq<Step>, iid: int, hmac: Hmac, sha: string -> string): seq<int> {
    if steps == [] then []
    else
      var before := steps[..|steps| - 1];
      var s := steps[|steps| - 1];
      MintedTs(before, iid, hmac, sha)
      + if MintsAt(After(before, hmac, sha), s, iid, hmac) then [s.q.ts] else []
  }

  predicate Increasing(s: seq<int>) { forall i, j :: 0 <= i < j < |s| ==> s[i] < s[j] }

  ghost predicate HighWater(log: Log, iid: int, ts: seq<int>) {
    Increasing(ts) && forall i :: 0 <= i < |ts| ==> ts[i] <= IssuedTs(log, iid)
  }

  lemma SweepKeepsHighWater(r: Replay, q: Credreq, w: Weather, hmac: Hmac, iid: int, ts: seq<int>)
    requires HighWater(r.log, iid, ts)
    ensures var out := Sweep(r, q, w, hmac);
            HighWater(out.replay.log, iid, ts + if q.iid == iid && Minted(out.verdict) then [q.ts] else [])
  {
    hide Pruned, TsFresh, CheckPolicy, AuthorizedRole, RateLimit.Acquire;
    var log := Pruned(r.log, w.now - 2.0 * REPLAY_WINDOW_S);
    assert log.issued == r.log.issued by { PruneKeepsIssued(r.log, w.now - 2.0 * REPLAY_WINDOW_S); }
    assert ts + [] == ts;
  }

  lemma PruneKeepsIssued(l: Log, cutoff: real)
    ensures Pruned(l, cutoff).issued == l.issued
  {
  }

  /** No request mints twice on the bucket lane: the minting timestamps of an
      instance strictly increase over any run, restarts and the other transport
      included, whatever the clock does. */
  lemma {:induction false} MintsStrictlyIncrease(steps: seq<Step>, iid: int, hmac: Hmac, sha: string -> string)
    ensures HighWater(After(steps, hmac, sha).log, iid, MintedTs(steps, iid, hmac, sha))
  {
    hide Sweep, Http;
    if steps != [] {
      var n := |steps| - 1;
      var s := steps[n];
      var r := After(steps[..n], hmac, sha);
      var ts := MintedTs(steps[..n], iid, hmac, sha);
      MintsStrictlyIncrease(steps[..n], iid, hmac, sha);
      if s.SweepStep? {
        SweepKeepsHighWater(r, s.q, s.w, hmac, iid, ts);
      } else {
        assert ts + [] == ts;
      }
    }
  }

  // ---- the shared throttle ---------------------------------------------------

  /** The throttle call this step makes, if it gets that far. */
  function CallOf(r: Replay, s: Step, hmac: Hmac, sha: string -> string): seq<RateLimit.Call> {
    match s
    case SweepStep(q, w) =>
      if (q.iid, q.ts) in r.log.seen || Refusal(Pruned(r.log, w.now - 2.0 * REPLAY_WINDOW_S), q, w, hmac).Some?
      then [] else [RateLimit.Call(q.iid, w.now)]
    case HttpStep(world, now, iid, nonce, role, want, _) =>
      if !HoldsNonce(world, iid, nonce, sha) || AuthorizedRole(world, iid) == ""
         || role != AuthorizedRole(world, iid) || CheckPolicy(role, want).Denied?
      then [] else [RateLimit.Call(iid, now)]
    case Restart(_) => []
  }

  function CallsOf(steps: seq<Step>, hmac: Hmac, sha: string -> string): seq<RateLimit.Call> {
    if steps == [] then []
    else
      var before := steps[..|steps| - 1];
      CallsOf(before, hmac, sha) + CallOf(After(before, hmac, sha), steps[|steps| - 1], hmac, sha)
  }

  lemma StepCalls(r: Replay, s: Step, hmac: Hmac, sha: string -> string, calls: seq<RateLimit.Call>)
    requires r.stamps == RateLimit.DataAfter(calls)
    ensures Next(r, s, hmac, sha).stamps == RateLimit.DataAfter(calls + CallOf(r, s, hmac, sha))
  {
    hide Sweep, Http, RateLimit.Acquire;
    StepStamps(r, s, hmac, sha);
    var made := CallOf(r, s, hmac, sha);
    if made == [] {
      assert calls + made == calls;
    } else {
      assert (calls + made)[..|calls + made| - 1] == calls;
    }
  }

  /** A step touches the stamps only through the call it makes. */
  lemma StepStamps(r: Replay, s: Step, hmac: Hmac, sha: string -> string)
    ensures var made, after := CallOf(r, s, hmac, sha), Next(r, s, hmac, sha).stamps;
            && |made| <= 1
            && after == if made == [] then r.stamps
                        else r.stamps[made[0].iid := RateLimit.Acquire(RateLimit.StampsOf(r.stamps, made[0].iid), made[0].now).stamps]
  {
    hide Refusal, HoldsNonce, AuthorizedRole, CheckPolicy, RateLimit.Acquire, Pruned, Marked, MarkedIssued;
  }

  /** Keys left the broker at this step, by whichever transport. */
  predicate IssuesAt(r: Replay, s: Step, iid: int, hmac: Hmac, sha: string -> string) {
    || MintsAt(r, s, iid, hmac)
    || (s.HttpStep? && s.iid == iid
        && Http(r.stamps, s.world, s.now, s.iid, s.nonce, s.role, s.want, s.mintOk, sha).1 == 200)
  }

  lemma IssueIsGranted(r: Replay, s: Step, iid: int, hmac: Hmac, sha: string -> string, calls: seq<RateLimit.Call>)
    requires r.stamps == RateLimit.DataAfter(calls)
    requires IssuesAt(r, s, iid, hmac, sha)
    ensures CallOf(r, s, hmac, sha) == [RateLimit.Call(iid, TimeOf(s))]
    ensures RateLimit.Grants(calls + CallOf(r, s, hmac, sha), iid) == RateLimit.Grants(calls, iid) + [TimeOf(s)]
  {
    hide Refusal, HoldsNonce, AuthorizedRole, CheckPolicy, RateLimit.Acquire, Pruned;
    assert (calls + [RateLimit.Call(iid, TimeOf(s))])[..|calls|] == calls;
  }

  /** The role on record, the launch's own before the administrator's. */
  predicate RoleOnRecord(world: World, iid: int, role: string) {
    && role != "" && iid in world.instances
    && if world.instances[iid].role != "" then role == world.instances[iid].role
       else iid in world.registry && role == world.registry[iid].role
  }

  /** A nonce proves a box when the launch recorded that very nonce, or an administrator
      registered its hash. */
  predicate Proves(world: World, iid: int, nonce: string, sha: string -> string) {
    && nonce != "" && iid in world.instances
    && (nonce == world.instances[iid].nonce
        || (iid in world.registry && world.registry[iid].nonceSha != "" && world.registry[iid].nonceSha == sha(nonce)))
  }

  /** The box that is given keys is live, speaks under the role on record, asks for what
      that role may have, and proves itself: over HTTP by its nonce, in the bucket by a
      proof made with the nonce its launch recorded. */
  predicate Authorized(s: Step, iid: int, hmac: Hmac, sha: string -> string) {
    s.Restart? ||
    var (world, role, want) := if s.SweepStep? then (s.w.world, s.q.role, s.q.want) else (s.world, s.role, s.want);
    && iid in world.instances && world.instances[iid].live
    && RoleOnRecord(world, iid, role) && Grantable(role, want)
    && if s.HttpStep? then Proves(world, iid, s.nonce, sha)
       else world.instances[iid].nonce != "" && s.q.proof == hmac(world.instances[iid].nonce, iid, s.q.ts, role)
  }

  lemma RecordExactly(world: World, iid: int, role: string)
    requires iid in world.instances
    ensures RoleOnRecord(world, iid, role) <==> role != "" && role == AuthorizedRole(world, iid)
  {
  }

  lemma ProofExactly(world: World, iid: int, nonce: string, sha: string -> string)
    ensures HoldsNonce(world, iid, nonce, sha)
            <==> iid in world.instances && world.instances[iid].live && Proves(world, iid, nonce, sha)
  {
  }

  /** The HTTP lane answers an unauthorised request 403, an authorised one 429 when the
      throttle has no room, and otherwise 200 exactly when the mint succeeds. */
  lemma HttpExactly(stamps: map<int, seq<real>>, world: World, now: real, iid: int, nonce: string, role: string,
                    want: Option<string>, mintOk: bool, hmac: Hmac, sha: string -> string)
    ensures var admitted := Authorized(HttpStep(world, now, iid, nonce, role, want, mintOk), iid, hmac, sha);
            var recorded := RateLimit.StampsOf(stamps, iid);
            var room := RateLimit.Recent(recorded, now) < 24
                        && forall t :: t in recorded && now - t < 86400.0 ==> now - t >= 60.0;
            Http(stamps, world, now, iid, nonce, role, want, mintOk, sha).1 ==
              if !admitted then 403 else if !room then 429 else if mintOk then 200 else 403
  {
    PolicyExactly(role, want);
    ProofExactly(world, iid, nonce, sha);
    RateLimit.VerdictExactly(RateLimit.StampsOf(stamps, iid), now);
    if iid in world.instances {
      RecordExactly(world, iid, role);
    }
    hide HoldsNonce, AuthorizedRole, CheckPolicy, Grantable, Proves, RoleOnRecord, RateLimit.Acquire, RateLimit.Recent;
  }

  /** The bucket lane mints exactly for an authorised request it has no record of, named as
      its path is, dated within ten minutes of now and after the last mint, with room in
      the throttle and a mint that succeeds. */
  lemma SweepMintsExactly(r: Replay, q: Credreq, w: Weather, hmac: Hmac, sha: string -> string)
    ensures var recorded := RateLimit.StampsOf(r.stamps, q.iid);
            var room := RateLimit.Recent(recorded, w.now) < 24
                        && forall t :: t in recorded && w.now - t < 86400.0 ==> w.now - t >= 60.0;
            Minted(Sweep(r, q, w, hmac).verdict) <==>
              && (q.iid, q.ts) !in r.log.seen && q.iidText == q.pathIid
              && q.ts as real - 600.0 <= w.now <= q.ts as real + 600.0
              && q.ts > (if q.iid in r.log.issued then r.log.issued[q.iid] else 0)
              && Authorized(SweepStep(q, w), q.iid, hmac, sha)
              && room && w.mintOk
  {
    PolicyExactly(q.role, q.want);
    PruneKeepsIssued(r.log, w.now - 2.0 * REPLAY_WINDOW_S);
    RateLimit.VerdictExactly(RateLimit.StampsOf(r.stamps, q.iid), w.now);
    if q.iid in w.world.instances {
      RecordExactly(w.world, q.iid, q.role);
    }
    hide AuthorizedRole, CheckPolicy, Grantable, RoleOnRecord, Pruned, RateLimit.Acquire, RateLimit.Recent;
  }

  /** Every answered request is on record from then on, as of now, but one the throttle
      turned back, which may come again; an issued one raises the instance's mark. */
  lemma SweepRecordsExactly(r: Replay, q: Credreq, w: Weather, hmac: Hmac)
    ensures var out := Sweep(r, q, w, hmac);
            var key, log := (q.iid, q.ts), out.replay.log;
            && (out.verdict.Skipped? <==> key in r.log.seen)
            && (out.verdict == Refused(RateLimited) ==> key !in log.seen)
            && (!out.verdict.Skipped? && out.verdict != Refused(RateLimited) ==> key in log.seen && log.seen[key] == w.now)
            && (Minted(out.verdict) ==> q.iid in log.issued && log.issued[q.iid] == q.ts)
            && (!Minted(out.verdict) ==> log.issued == r.log.issued)
  {
    PruneKeepsIssued(r.log, w.now - 2.0 * REPLAY_WINDOW_S);
    hide TsFresh, CheckPolicy, AuthorizedRole, RateLimit.Acquire;
  }

  lemma IssueIsAuthorized(r: Replay, s: Step, iid: int, hmac: Hmac, sha: string -> string)
    requires IssuesAt(r, s, iid, hmac, sha)
    ensures Authorized(s, iid, hmac, sha)
  {
    hide Sweep, Http, Authorized;
    if s.SweepStep? {
      SweepMintsExactly(r, s.q, s.w, hmac, sha);
    } else {
      HttpExactly(r.stamps, s.world, s.now, s.iid, s.nonce, s.role, s.want, s.mintOk, hmac, sha);
    }
  }

  /** Both transports, every restart and any clock share one throttle: the
      instants at which an instance was granted are a minute apart, twenty-five
      of them span a day, and keys leave the broker only at such an instant and only to
      an authorised box. */
  lemma {:induction false} IssuesAreThrottled(steps: seq<Step>, iid: int, hmac: Hmac, sha: string -> string)
    ensures After(steps, hmac, sha).stamps == RateLimit.DataAfter(CallsOf(steps, hmac, sha))
    ensures RateLimit.Spread(RateLimit.Grants(CallsOf(steps, hmac, sha), iid))
    ensures steps != [] && IssuesAt(After(steps[..|steps| - 1], hmac, sha), steps[|steps| - 1], iid, hmac, sha)
            ==> RateLimit.Grants(CallsOf(steps, hmac, sha), iid)
                == RateLimit.Grants(CallsOf(steps[..|steps| - 1], hmac, sha), iid) + [TimeOf(steps[|steps| - 1])]
                && Authorized(steps[|steps| - 1], iid, hmac, sha)
  {
    hide Next, CallOf, IssuesAt, Authorized, RateLimit.Spread, RateLimit.Grants;
    RateLimit.GrantsAreSpread(CallsOf(steps, hmac, sha), iid);
    if steps != [] {
      var n := |steps| - 1;
      var r := After(steps[..n], hmac, sha);
      IssuesAreThrottled(steps[..n], iid, hmac, sha);
      StepCalls(r, steps[n], hmac, sha, CallsOf(steps[..n], hmac, sha));
      if IssuesAt(r, steps[n], iid, hmac, sha) {
        IssueIsGranted(r, steps[n], iid, hmac, sha, CallsOf(steps[..n], hmac, sha));
        IssueIsAuthorized(r, steps[n], iid, hmac, sha);
      }
    }
  }

  // ---- a remembered denial --------------------------------------------------

  function TimeOf(s: Step): real { if s.SweepStep? then s.w.now else s.now }

  predicate ClockForward(steps: seq<Step>) {
    forall i, j :: 0 <= i < j < |steps| ==> TimeOf(steps[i]) <= TimeOf(steps[j])
  }

  /** The request can no longer mint: it is remembered since a time at which it was
      fresh, or it is stale for good. */
  predicate Barred(log: Log, iid: int, ts: int, now: real) {
    || ((iid, ts) in log.seen && ts as real <= log.seen[(iid, ts)] + REPLAY_WINDOW_S)
    || ts as real + REPLAY_WINDOW_S < now
  }

  lemma BarredStays(r: Replay, s: Step, iid: int, ts: int, hmac: Hmac, sha: string -> string)
    requires Barred(r.log, iid, ts, TimeOf(s))
    ensures Barred(Next(r, s, hmac, sha).log, iid, ts, TimeOf(s))
    ensures s.SweepStep? && s.q.iid == iid && s.q.ts == ts ==> !Minted(Sweep(r, s.q, s.w, hmac).verdict)
  {
    hide CheckPolicy, AuthorizedRole, RateLimit.Acquire;
  }

  lemma {:induction false} BarredForever(steps: seq<Step>, m: nat, i: nat, iid: int, ts: int,
                                         hmac: Hmac, sha: string -> string)
    requires 0 < m <= i <= |steps| && ClockForward(steps)
    requires Barred(After(steps[..m], hmac, sha).log, iid, ts, TimeOf(steps[m - 1]))
    ensures Barred(After(steps[..i], hmac, sha).log, iid, ts, TimeOf(steps[i - 1]))
    decreases i
  {
    hide Next, Sweep, Barred, TimeOf;
    if m < i {
      BarredForever(steps, m, i - 1, iid, ts, hmac, sha);
      assert steps[..i][..i - 1] == steps[..i - 1];
      var r := After(steps[..i - 1], hmac, sha);
      BarredLater(r.log, iid, ts, TimeOf(steps[i - 2]), TimeOf(steps[i - 1]));
      BarredStays(r, steps[i - 1], iid, ts, hmac, sha);
    }
  }

  lemma BarredLater(log: Log, iid: int, ts: int, now: real, later: real)
    requires Barred(log, iid, ts, now) && now <= later
    ensures Barred(log, iid, ts, later)
  {
  }

  /** The request is turned away for good: some check fails, or it gets through to a
      mint that fails. Only the throttle's refusal is not remembered. */
  predicate TurnedAway(r: Replay, q: Credreq, w: Weather, hmac: Hmac) {
    var v := Sweep(r, q, w, hmac).verdict;
    v.Refused? && v.reason != RateLimited
  }

  /** Dated no further ahead than the window in which a request counts as fresh. */
  predicate DatedInTime(q: Credreq, now: real) { q.ts as real <= now + REPLAY_WINDOW_S }

  /** With a clock that never steps back, a denied request dated no further ahead than
      the window never mints: it is dropped from memory only once it is stale. */
  lemma RememberedDenialNeverMints(steps: seq<Step>, d: nat, i: nat, hmac: Hmac, sha: string -> string)
    requires d < i < |steps| && ClockForward(steps)
    requires steps[d].SweepStep? && DatedInTime(steps[d].q, steps[d].w.now)
    requires TurnedAway(After(steps[..d], hmac, sha), steps[d].q, steps[d].w, hmac)
    ensures !(MintsAt(After(steps[..i], hmac, sha), steps[i], steps[d].q.iid, hmac)
              && steps[i].q.ts == steps[d].q.ts)
  {
    hide Sweep, Barred;
    var q := steps[d].q;
    var r := After(steps[..i], hmac, sha);
    DenialBars(After(steps[..d], hmac, sha), q, steps[d].w, hmac);
    assert steps[..d + 1][..d] == steps[..d];
    BarredForever(steps, d + 1, i, q.iid, q.ts, hmac, sha);
    BarredLater(r.log, q.iid, q.ts, TimeOf(steps[i - 1]), TimeOf(steps[i]));
    BarredStays(r, steps[i], q.iid, q.ts, hmac, sha);
  }

  lemma DenialBars(r: Replay, q: Credreq, w: Weather, hmac: Hmac)
    requires TurnedAway(r, q, w, hmac) && DatedInTime(q, w.now)
    ensures Barred(Sweep(r, q, w, hmac).replay.log, q.iid, q.ts, w.now)
  {
    hide Pruned, CheckPolicy, AuthorizedRole, RateLimit.Acquire, Refusal;
  }

  // ---- a denial dated ahead -------------------------------------------------------

  /** Some launch record would let this very request through, were it the time for it. */
  predicate Acceptable(q: Credreq, nonce: string, hmac: Hmac) {
    && q.iidText == q.pathIid && nonce != "" && hmac(nonce, q.iid, q.ts, q.role) == q.proof
    && CheckPolicy(q.role, q.want).Allowed?
  }

  function LaunchedWith(q: Credreq, nonce: string): World {
    World(map[q.iid := Instance(true, q.role, nonce)], map[])
  }

  /** Every stamp on record is no later than `now`. */
  ghost predicate StampedBy(stamps: map<int, seq<real>>, now: real) {
    forall iid, i :: iid in stamps && 0 <= i < |stamps[iid]| ==> stamps[iid][i] <= now
  }

  lemma FreshIsOfThose(stamps: seq<real>, now: real, late: real)
    requires forall i :: 0 <= i < |stamps| ==> stamps[i] <= late
    ensures forall i :: 0 <= i < |RateLimit.Fresh(stamps, now)| ==> RateLimit.Fresh(stamps, now)[i] <= late
  {
  }

  lemma AcquireStampedBy(stamps: map<int, seq<real>>, iid: int, now: real)
    requires StampedBy(stamps, now)
    ensures StampedBy(stamps[iid := RateLimit.Acquire(RateLimit.StampsOf(stamps, iid), now).stamps], now)
  {
    hide RateLimit.Fresh, RateLimit.Latest;
    FreshIsOfThose(RateLimit.StampsOf(stamps, iid), now, now);
  }

  lemma StepStampedBy(r: Replay, s: Step, hmac: Hmac, sha: string -> string)
    requires StampedBy(r.stamps, TimeOf(s))
    ensures StampedBy(Next(r, s, hmac, sha).stamps, TimeOf(s))
  {
    hide StampedBy, RateLimit.Acquire, Refusal, HoldsNonce, AuthorizedRole, CheckPolicy, Pruned;
    match s
    case SweepStep(q, w) => AcquireStampedBy(r.stamps, q.iid, w.now);
    case HttpStep(_, now, iid, _, _, _, _) => AcquireStampedBy(r.stamps, iid, now);
    case Restart(_) =>
  }

  lemma {:induction false} StampsAreDated(steps: seq<Step>, now: real, hmac: Hmac, sha: string -> string)
    requires ClockForward(steps) && (steps != [] ==> TimeOf(steps[|steps| - 1]) <= now)
    ensures StampedBy(After(steps, hmac, sha).stamps, now)
  {
    hide Next, TimeOf;
    if steps != [] {
      var n := |steps| - 1;
      StampsAreDated(steps[..n], TimeOf(steps[n]), hmac, sha);
      StepStampedBy(After(steps[..n], hmac, sha), steps[n], hmac, sha);
    }
  }

  /** Any request that is not on record will do to have the record pruned. */
  lemma {:induction false} Unseen(seen: set<(int, int)>, iid: int) returns (ts: int)
    ensures forall t :: t >= ts ==> (iid, t) !in seen
    decreases seen
  {
    if seen == {} {
      ts := 0;
    } else {
      var k :| k in seen;
      var rest := seen - {k};
      ts := Unseen(rest, iid);
      ts := if k.1 >= ts then k.1 + 1 else ts;
      forall t | t >= ts ensures (iid, t) !in seen {
        assert (iid, t) in seen ==> (iid, t) == k || (iid, t) in rest;
      }
    }
  }

  /** A stray request, its name at odds with its path, sweeps the old entries out. */
  lemma StrayPrunes(r: Replay, iid: int, now: real, hmac: Hmac) returns (stray: Credreq)
    ensures stray.iid == iid + 1
    ensures var out := Sweep(r, stray, Weather(World(map[], map[]), now, true, true), hmac).replay;
            && out.stamps == r.stamps && out.log.issued == r.log.issued
            && forall ts :: (iid, ts) in out.log.seen <==> (iid, ts) in r.log.seen && r.log.seen[(iid, ts)] >= now - 2.0 * REPLAY_WINDOW_S
  {
    var ts := Unseen(r.log.seen.Keys, iid + 1);
    stray := Credreq("path", iid + 1, "name", ts, "", "", None);
    hide CheckPolicy, AuthorizedRole, RateLimit.Acquire;
  }

  /** At the last instant of its window an acceptable request on no record mints, if
      it is newer than the instance's last mint and the throttle has room. */
  lemma LastInstantMints(r: Replay, q: Credreq, nonce: string, hmac: Hmac)
    requires Acceptable(q, nonce, hmac)
    requires (q.iid, q.ts) !in r.log.seen && q.ts > IssuedTs(r.log, q.iid)
    requires StampedBy(r.stamps, q.ts as real + REPLAY_WINDOW_S - RateLimit.RATE_MIN_SPACING_S)
    requires |RateLimit.Fresh(RateLimit.StampsOf(r.stamps, q.iid), q.ts as real + REPLAY_WINDOW_S)| < RateLimit.RATE_DAILY_CAP
    ensures Sweep(r, q, Weather(LaunchedWith(q, nonce), q.ts as real + REPLAY_WINDOW_S, true, true), hmac).verdict == Issued
  {
    hide RateLimit.Fresh, RateLimit.Latest;
    var now := q.ts as real + REPLAY_WINDOW_S;
    var stamps := RateLimit.StampsOf(r.stamps, q.iid);
    FreshIsOfThose(stamps, now, now - RateLimit.RATE_MIN_SPACING_S);
    var log := Pruned(r.log, now - 2.0 * REPLAY_WINDOW_S);
    assert log.issued == r.log.issued by { PruneKeepsIssued(r.log, now - 2.0 * REPLAY_WINDOW_S); }
    assert Refusal(log, q, Weather(LaunchedWith(q, nonce), now, true, true), hmac).None?;
  }

  /** The run ends with the sweep of `q`, which denies it. */
  predicate EndsDenying(steps: seq<Step>, q: Credreq, hmac: Hmac, sha: string -> string) {
    && steps != [] && steps[|steps| - 1].SweepStep? && steps[|steps| - 1].q == q
    && TurnedAway(After(steps[..|steps| - 1], hmac, sha), q, steps[|steps| - 1].w, hmac)
  }

  /** Some later sweep of the same request mints, the clock never stepping back. */
  ghost predicate MintsLater(steps: seq<Step>, q: Credreq, hmac: Hmac, sha: string -> string) {
    exists more: seq<Step>, w :: ClockForward(steps + more + [SweepStep(q, w)])
                      && Minted(Sweep(After(steps + more, hmac, sha), q, w, hmac).verdict)
  }

  /** Denied once, a request that some launch record would accept, that is newer than
      the last mint and for which the throttle will have room, can mint later exactly
      when it was dated further ahead than the window. */
  lemma DeniedMintsLaterExactly(steps: seq<Step>, q: Credreq, nonce: string, hmac: Hmac, sha: string -> string)
    requires ClockForward(steps) && EndsDenying(steps, q, hmac, sha)
    requires Acceptable(q, nonce, hmac) && q.ts > IssuedTs(After(steps, hmac, sha).log, q.iid)
    requires |RateLimit.Fresh(RateLimit.StampsOf(After(steps, hmac, sha).stamps, q.iid), q.ts as real + REPLAY_WINDOW_S)|
             < RateLimit.RATE_DAILY_CAP
    ensures MintsLater(steps, q, hmac, sha) <==> !DatedInTime(q, steps[|steps| - 1].w.now)
  {
    var now := steps[|steps| - 1].w.now;
    if DatedInTime(q, now) {
      if MintsLater(steps, q, hmac, sha) {
        var more, w :| ClockForward(steps + more + [SweepStep(q, w)])
                       && Minted(Sweep(After(steps + more, hmac, sha), q, w, hmac).verdict);
        NoneMintsLater(steps, more, q, w, hmac, sha);
      }
    } else {
      DatedAheadMints(steps, q, nonce, hmac, sha);
    }
  }

  lemma NoneMintsLater(steps: seq<Step>, more: seq<Step>, q: Credreq, w: Weather, hmac: Hmac, sha: string -> string)
    requires EndsDenying(steps, q, hmac, sha) && DatedInTime(q, steps[|steps| - 1].w.now)
    requires ClockForward(steps + more + [SweepStep(q, w)])
    ensures !Minted(Sweep(After(steps + more, hmac, sha), q, w, hmac).verdict)
  {
    hide TurnedAway, Sweep, ClockForward;
    var run, d := steps + more + [SweepStep(q, w)], |steps| - 1;
    assert run[..d] == steps[..d] && run[d] == steps[d];
    assert run[..|run| - 1] == steps + more;
    RememberedDenialNeverMints(run, d, |run| - 1, hmac, sha);
  }

  lemma DatedAheadMints(steps: seq<Step>, q: Credreq, nonce: string, hmac: Hmac, sha: string -> string)
    requires ClockForward(steps) && EndsDenying(steps, q, hmac, sha) && !DatedInTime(q, steps[|steps| - 1].w.now)
    requires Acceptable(q, nonce, hmac) && q.ts > IssuedTs(After(steps, hmac, sha).log, q.iid)
    requires |RateLimit.Fresh(RateLimit.StampsOf(After(steps, hmac, sha).stamps, q.iid), q.ts as real + REPLAY_WINDOW_S)|
             < RateLimit.RATE_DAILY_CAP
    ensures MintsLater(steps, q, hmac, sha)
  {
    hide Acceptable, RateLimit.Fresh, Sweep, TurnedAway, StampedBy, RateLimit.StampsOf;
    var n := |steps| - 1;
    var denied, late := steps[n].w.now, q.ts as real + REPLAY_WINDOW_S;
    var r := After(steps, hmac, sha);
    StampsAreDated(steps, denied, hmac, sha);
    StampedLater(r.stamps, denied, late - RateLimit.RATE_MIN_SPACING_S);
    DenialIsDated(After(steps[..n], hmac, sha), q, steps[n].w, hmac);
    var stray := StrayPrunes(r, q.iid, late, hmac);
    var sweep := SweepStep(stray, Weather(World(map[], map[]), late, true, true));
    AfterSnoc(steps, sweep, hmac, sha);
    var r' := After(steps + [sweep], hmac, sha);
    LastInstantMints(r', q, nonce, hmac);
    var w := Weather(LaunchedWith(q, nonce), late, true, true);
    ForwardSnoc(steps, sweep);
    ForwardSnoc(steps + [sweep], SweepStep(q, w));
    assert ClockForward(steps + [sweep] + [SweepStep(q, w)]);
  }

  lemma AfterSnoc(steps: seq<Step>, s: Step, hmac: Hmac, sha: string -> string)
    ensures After(steps + [s], hmac, sha) == Next(After(steps, hmac, sha), s, hmac, sha)
  {
    assert (steps + [s])[..|steps|] == steps;
  }

  lemma ForwardSnoc(steps: seq<Step>, s: Step)
    requires ClockForward(steps) && steps != [] && TimeOf(steps[|steps| - 1]) <= TimeOf(s)
    ensures ClockForward(steps + [s])
  {
    hide TimeOf;
    forall i | 0 <= i < |steps| ensures TimeOf(steps[i]) <= TimeOf(s) {
      assert i < |steps| - 1 ==> TimeOf(steps[i]) <= TimeOf(steps[|steps| - 1]);
    }
  }

  lemma StampedLater(stamps: map<int, seq<real>>, now: real, later: real)
    requires StampedBy(stamps, now) && now <= later
    ensures StampedBy(stamps, later)
  {
  }

  lemma DenialIsDated(r: Replay, q: Credreq, w: Weather, hmac: Hmac)
    requires TurnedAway(r, q, w, hmac)
    ensures var seen := Sweep(r, q, w, hmac).replay.log.seen;
            (q.iid, q.ts) in seen && seen[(q.iid, q.ts)] == w.now
  {
    hide Pruned, CheckPolicy, AuthorizedRole, RateLimit.Acquire, Refusal;
  }

  /** Such a run, from nothing. */
  lemma FutureDatedDenialMayMint(hmac: Hmac, sha: string -> string)
    ensures var world := World(map[1 := Instance(true, "jobs", "n"), 2 := Instance(true, "jobs", "n")], map[]);
            var early := Credreq("1", 1, "1", 2000, "jobs", hmac("n", 1, 2000, "jobs"), None);
            var other := Credreq("2", 2, "2", 2000, "jobs", hmac("n", 2, 2000, "jobs"), None);
            var steps := [SweepStep(early, Weather(world, 0.0, true, true)),
                          SweepStep(other, Weather(world, 1999.0, true, true)),
                          SweepStep(early, Weather(world, 2000.0, true, true))];
            && ClockForward(steps)
            && Sweep(After([], hmac, sha), early, steps[0].w, hmac).verdict == Refused(StaleTs)
            && Sweep(After(steps[..2], hmac, sha), early, steps[2].w, hmac).verdict == Issued
  {
    var world := World(map[1 := Instance(true, "jobs", "n"), 2 := Instance(true, "jobs", "n")], map[]);
    var early := Credreq("1", 1, "1", 2000, "jobs", hmac("n", 1, 2000, "jobs"), None);
    var other := Credreq("2", 2, "2", 2000, "jobs", hmac("n", 2, 2000, "jobs"), None);
    var s0 := SweepStep(early, Weather(world, 0.0, true, true));
    var s1 := SweepStep(other, Weather(world, 1999.0, true, true));
    var s2 := SweepStep(early, Weather(world, 2000.0, true, true));
    assert [s0, s1, s2][..2] == [s0, s1] && [s0, s1][..1] == [s0] && [s0][..0] == [];
    var r0 := After([], hmac, sha);
    var r1 := After([s0], hmac, sha);
    assert Sweep(r0, early, s0.w, hmac).verdict == Refused(StaleTs);
    assert r1.log.seen == map[(1, 2000) := 0.0];
    var r2 := After([s0, s1], hmac, sha);
    assert (1, 2000) !in r2.log.seen;
    assert IssuedTs(r2.log, 1) == 0;
    assert RateLimit.StampsOf(r2.stamps, 1) == [];
  }
}
