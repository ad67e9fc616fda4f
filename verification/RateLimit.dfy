/** The per-instance mint throttle both transports share (tools/vast/credbroker.py). */
module RateLimit {

  const RATE_MIN_SPACING_S := 60.0
  const RATE_DAILY_CAP := 24
  const DAY_S := 86400.0

  datatype Verdict = Granted | Spacing | DailyCap

  datatype Outcome = Outcome(verdict: Verdict, stamps: seq<real>)

  function Fresh(stamps: seq<real>, now: real): seq<real> {
    if stamps == [] then []
    else
      var init := Fresh(stamps[..|stamps| - 1], now);
      var t := stamps[|stamps| - 1];
      if now - t < DAY_S then init + [t] else init
  }

  function Latest(stamps: seq<real>): (m: real)
    requires stamps != []
    ensures m in stamps
    ensures forall i :: 0 <= i < |stamps| ==> stamps[i] <= m
  {
    if |stamps| == 1 then stamps[0]
    else
      var init := Latest(stamps[..|stamps| - 1]);
      if init >= stamps[|stamps| - 1] then init else stamps[|stamps| - 1]
  }

  /** Expired stamps are dropped on every call, a refused one included. */
  function Acquire(stamps: seq<real>, now: real): Outcome {
    var kept := Fresh(stamps, now);
    if kept != [] && now - Latest(kept) < RATE_MIN_SPACING_S then Outcome(Spacing, kept)
    else if |kept| >= RATE_DAILY_CAP then Outcome(DailyCap, kept)
    else Outcome(Granted, kept + [now])
  }

  function StampsOf(data: map<int, seq<real>>, iid: int): seq<real> {
    if iid in data then data[iid] else []
  }

  lemma {:induction false} FreshExactly(stamps: seq<real>, now: real)
    ensures forall t :: t in Fresh(stamps, now) <==> t in stamps && now - t < 86400.0
  {
    if stamps != [] {
      FreshExactly(stamps[..|stamps| - 1], now);
      assert stamps == stamps[..|stamps| - 1] + [stamps[|stamps| - 1]];
    }
  }

  /** How many of the stamps lie within the last day. */
  function Recent(stamps: seq<real>, now: real): nat {
    if stamps == [] then 0
    else Recent(stamps[..|stamps| - 1], now) + if now - stamps[|stamps| - 1] < 86400.0 then 1 else 0
  }

  lemma {:induction false} RecentCounts(stamps: seq<real>, now: real)
    ensures |Fresh(stamps, now)| == Recent(stamps, now)
  {
    if stamps != [] {
      RecentCounts(stamps[..|stamps| - 1], now);
    }
  }

  /** A grant is refused within a minute of the last day's latest, then at twenty-four in
      the last day, and for nothing else. */
  lemma VerdictExactly(stamps: seq<real>, now: real)
    ensures var crowded := exists t :: t in stamps && now - t < 86400.0 && now - t < 60.0;
            Acquire(stamps, now).verdict ==
              if crowded then Spacing else if Recent(stamps, now) >= 24 then DailyCap else Granted
  {
    hide Fresh, Latest;
    var kept := Fresh(stamps, now);
    FreshExactly(stamps, now);
    RecentCounts(stamps, now);
    if t :| t in stamps && now - t < 86400.0 && now - t < 60.0 {
      assert t in kept;
      var i :| 0 <= i < |kept| && kept[i] == t;
    }
    if kept != [] {
      assert Latest(kept) in kept;
    }
  }

  /** The persisted dictionary; every call saves what it leaves here. */
  class RateLimiter {
    var data: map<int, seq<real>>

    constructor (persisted: map<int, seq<real>>)
      ensures data == persisted
    {
      data := persisted;
    }

    method TryAcquire(iid: int, now: real) returns (verdict: Verdict)
      modifies this
      ensures var out := Acquire(StampsOf(old(data), iid), now);
              verdict == out.verdict && data == old(data)[iid := out.stamps]
    {
      var recorded := StampsOf(data, iid);
      var stamps: seq<real> := [];
      for i := 0 to |recorded|
        invariant stamps == Fresh(recorded[..i], now)
      {
        assert recorded[..i + 1][..i] == recorded[..i];
        if now - recorded[i] < DAY_S {
          stamps := stamps + [recorded[i]];
        }
      }
      assert recorded[..|recorded|] == recorded;
      if stamps != [] && now - Latest(stamps) < RATE_MIN_SPACING_S {
        data := data[iid := stamps];
        return Spacing;
      }
      if |stamps| >= RATE_DAILY_CAP {
        data := data[iid := stamps];
        return DailyCap;
      }
      data := data[iid := stamps + [now]];
      return Granted;
    }
  }

  // ---- whole runs, both transports, any clock ------------------------------

  datatype Call = Call(iid: int, now: real)

  function DataAfter(calls: seq<Call>): map<int, seq<real>> {
    if calls == [] then map[]
    else
      var before := DataAfter(calls[..|calls| - 1]);
      var c := calls[|calls| - 1];
      before[c.iid := Acquire(StampsOf(before, c.iid), c.now).stamps]
  }

  /** The readings at which this instance was granted a mint, in call order. */
  function Grants(calls: seq<Call>, iid: int): seq<real> {
    if calls == [] then []
    else
      var before := calls[..|calls| - 1];
      var c := calls[|calls| - 1];
      Grants(before, iid)
      + if c.iid == iid && Acquire(StampsOf(DataAfter(before), iid), c.now).verdict == Granted then [c.now] else []
  }

  /** Any two grants are a minute apart, and any two with twenty-three others
      between them a day apart. */
  ghost predicate Spread(g: seq<real>) {
    && (forall i, j :: 0 <= i < j < |g| ==> g[i] + RATE_MIN_SPACING_S <= g[j])
    && (forall i, j :: 0 <= i && i + RATE_DAILY_CAP <= j < |g| ==> g[i] + DAY_S <= g[j])
  }

  /** What the stored stamps remember of the grant log: a non-empty tail of it, at
      most a day's cap, and every forgotten grant is already a day behind any
      reading that could be granted next, unless the tail is full. */
  ghost predicate Remembers(stamps: seq<real>, g: seq<real>) {
    && |stamps| <= RATE_DAILY_CAP && |stamps| <= |g|
    && stamps == g[|g| - |stamps|..]
    && (g != [] ==> stamps != [])
    && (|stamps| < RATE_DAILY_CAP ==>
          forall i :: 0 <= i < |g| - |stamps| ==> g[i] + DAY_S <= g[|g| - 1] + RATE_MIN_SPACING_S)
  }

  predicate Ascending(s: seq<real>) { forall i, j :: 0 <= i < j < |s| ==> s[i] < s[j] }

  lemma TailAscends(g: seq<real>, k: nat)
    requires Spread(g) && k <= |g|
    ensures Ascending(g[k..])
  {
  }

  lemma InitAscends(s: seq<real>)
    requires Ascending(s) && s != []
    ensures Ascending(s[..|s| - 1])
  {
  }

  lemma LastIsLatest(s: seq<real>, k: nat)
    requires Ascending(s) && k < |s|
    ensures s[k] <= s[|s| - 1]
  {
  }

  lemma FreshIsTail(stamps: seq<real>, now: real) returns (k: nat)
    requires Ascending(stamps)
    ensures k <= |stamps| && Fresh(stamps, now) == stamps[k..]
    ensures forall i :: 0 <= i < k ==> now - stamps[i] >= DAY_S
    ensures k < |stamps| ==> now - stamps[k] < DAY_S
  {
    if stamps == [] {
      k := 0;
    } else {
      hide Ascending;
      var n := |stamps| - 1;
      InitAscends(stamps);
      k := FreshIsTail(stamps[..n], now);
      if k < n {
        LastIsLatest(stamps, k);
        assert stamps[..n][k..] + [stamps[n]] == stamps[k..];
      } else if now - stamps[n] < DAY_S {
        assert stamps[k..] == [stamps[n]];
      } else {
        k := n + 1;
      }
    }
  }

  lemma LatestIsLast(stamps: seq<real>)
    requires Ascending(stamps) && stamps != []
    ensures Latest(stamps) == stamps[|stamps| - 1]
  {
    var m := Latest(stamps);
    var i :| 0 <= i < |stamps| && stamps[i] == m;
  }

  /** One call keeps the record faithful and the grants spread. */
  lemma AcquireKeeps(stamps: seq<real>, g: seq<real>, now: real)
    requires Remembers(stamps, g) && Spread(g)
    ensures var out := Acquire(stamps, now);
            var g' := if out.verdict == Granted then g + [now] else g;
            Remembers(out.stamps, g') && Spread(g')
  {
    hide Fresh, Latest, Spread, Remembers;
    var a := TailStart(stamps, g);
    TailAscends(g, a);
    var k := FreshIsTail(stamps, now);
    var b := a + k;
    assert stamps[k..] == g[b..];
    if b < |g| {
      TailAscends(g, b);
      LatestIsLast(g[b..]);
    }
    assert forall i :: a <= i < b ==> g[i] == stamps[i - a];
    if Acquire(stamps, now).verdict == Granted {
      GrantKeeps(g, a, b, now);
      assert g[b..] + [now] == (g + [now])[b..];
    } else {
      RefusalKeeps(g, a, b, now);
    }
  }

  lemma TailStart(stamps: seq<real>, g: seq<real>) returns (a: nat)
    requires Remembers(stamps, g)
    ensures a <= |g| && stamps == g[a..] && |g| - a <= RATE_DAILY_CAP
  {
    a := |g| - |stamps|;
  }

  /** Everything the record has forgotten by this call is a day behind `now`. */
  lemma ForgottenIsOld(g: seq<real>, a: nat, b: nat, now: real, i: nat)
    requires a <= b <= |g| && i < b && |g| - b < RATE_DAILY_CAP
    requires Remembers(g[a..], g) && Spread(g)
    requires forall j :: a <= j < b ==> now - g[j] >= DAY_S
    requires now >= g[|g| - 1] + RATE_MIN_SPACING_S
    ensures g[i] + DAY_S <= now
  {
    if i < a && |g| - a == RATE_DAILY_CAP {
      assert g[i] + RATE_MIN_SPACING_S <= g[a] && now - g[a] >= DAY_S;
    }
  }

  /** A granted reading clears the last grant by the spacing and the twenty-fourth
      last by a day, forgotten or not. */
  lemma GrantKeeps(g: seq<real>, a: nat, b: nat, now: real)
    requires a <= b <= |g| && |g| - b < RATE_DAILY_CAP
    requires Remembers(g[a..], g) && Spread(g)
    requires forall i :: a <= i < b ==> now - g[i] >= DAY_S
    requires b < |g| ==> now - g[|g| - 1] >= RATE_MIN_SPACING_S
    ensures Spread(g + [now])
    ensures Remembers((g + [now])[b..], g + [now])
  {
    var n := |g|;
    if n > 0 {
      assert a < n;
      assert now >= g[n - 1] + RATE_MIN_SPACING_S by {
        if b == n {
          assert now - g[n - 1] >= DAY_S;
        }
      }
      forall i | 0 <= i < b ensures g[i] + DAY_S <= now {
        ForgottenIsOld(g, a, b, now, i);
      }
    }
  }

  /** A refusal may forget too, but only what no later grant can be close to. */
  lemma RefusalKeeps(g: seq<real>, a: nat, b: nat, now: real)
    requires a <= b < |g| && |g| - b <= RATE_DAILY_CAP
    requires Remembers(g[a..], g) && Spread(g)
    requires forall i :: a <= i < b ==> now - g[i] >= DAY_S
    requires |g| - b < RATE_DAILY_CAP ==> now - g[|g| - 1] < RATE_MIN_SPACING_S
    ensures Remembers(g[b..], g)
  {
    if |g| - b < RATE_DAILY_CAP {
      forall i | 0 <= i < b ensures g[i] + DAY_S <= g[|g| - 1] + RATE_MIN_SPACING_S {
        if i < a && |g| - a == RATE_DAILY_CAP {
          assert g[i] + RATE_MIN_SPACING_S <= g[a] && now - g[a] >= DAY_S;
        }
      }
    }
  }

  /** For every instance, over any interleaving of calls from either transport,
      any restarts and any clock readings, jumps both ways included: consecutive
      grants are a minute apart and any twenty-five of them span a day. */
  lemma {:induction false} GrantsAreSpread(calls: seq<Call>, iid: int)
    ensures Spread(Grants(calls, iid))
    ensures Remembers(StampsOf(DataAfter(calls), iid), Grants(calls, iid))
  {
    hide Acquire, Spread, Remembers;
    if calls == [] {
      NothingGranted();
    } else {
      var n := |calls| - 1;
      GrantsAreSpread(calls[..n], iid);
      if calls[n].iid == iid {
        AcquireKeeps(StampsOf(DataAfter(calls[..n]), iid), Grants(calls[..n], iid), calls[n].now);
      }
      assert Grants(calls[..n], iid) + [] == Grants(calls[..n], iid);
    }
  }

  /** The clock never steps back, and reads `now` last. */
  predicate Forward(calls: seq<Call>, now: real) {
    && (forall i, j :: 0 <= i < j < |calls| ==> calls[i].now <= calls[j].now)
    && (forall i :: 0 <= i < |calls| ==> calls[i].now <= now)
  }

  lemma {:induction false} FreshTwice(stamps: seq<real>, earlier: real, now: real)
    requires earlier <= now
    ensures Fresh(Fresh(stamps, earlier), now) == Fresh(stamps, now)
  {
    if stamps != [] {
      var n := |stamps| - 1;
      var init := Fresh(stamps[..n], earlier);
      FreshTwice(stamps[..n], earlier, now);
      assert (init + [stamps[n]])[..|init|] == init;
    }
  }

  lemma FreshSnoc(stamps: seq<real>, t: real, now: real)
    ensures Fresh(stamps + [t], now) == Fresh(stamps, now) + if now - t < DAY_S then [t] else []
  {
    assert (stamps + [t])[..|stamps|] == stamps;
    assert Fresh(stamps, now) + [] == Fresh(stamps, now);
  }

  /** While the clock never steps back, pruning forgets nothing: each verdict is the
      one the complete record of grants would give, so a mint is refused only for a
      grant in the last minute or a full day's worth in the last day. */
  lemma {:induction false} PruningIsInvisible(calls: seq<Call>, iid: int, now: real)
    requires Forward(calls, now)
    ensures Fresh(StampsOf(DataAfter(calls), iid), now) == Fresh(Grants(calls, iid), now)
    ensures Acquire(StampsOf(DataAfter(calls), iid), now) == Acquire(Grants(calls, iid), now)
  {
    hide Fresh, Latest;
    if calls != [] {
      var n := |calls| - 1;
      var c := calls[n];
      var stamps, g := StampsOf(DataAfter(calls[..n]), iid), Grants(calls[..n], iid);
      PruningIsInvisible(calls[..n], iid, c.now);
      PruningIsInvisible(calls[..n], iid, now);
      if c.iid == iid {
        FreshTwice(stamps, c.now, now);
        FreshSnoc(Fresh(stamps, c.now), c.now, now);
        FreshSnoc(g, c.now, now);
      }
      assert g + [] == g;
    }
  }

  lemma NothingGranted()
    ensures Spread([]) && Remembers([], [])
  {
  }
}
