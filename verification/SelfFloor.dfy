/** The market floor that is our own bid read back: the matcher
    (tools/vast/bidpolicy.py) and the standing-bid history and row guard that
    feed it (tools/vast/ladder_core.py). */
module SelfFloor {
  import opened Money

  const BID_SELF_FLOOR_EPS := 0.0005
  const MATCH_SLOP := 0.000000001
  const BID_SELF_FLOOR_LAG_S := 3600.0
  const BID_RATE_LIMIT_S := 60.0
  const BID_HISTORY_MAX := 72

  /** `tsLast` is absent on entries written before that field existed. */
  datatype Entry = Entry(tsFirst: real, price: real, machine: string, tsLast: Option<real>)

  datatype Kind = Standing | Prior

  datatype Match = Match(kind: Kind, price: real, age: Option<real>)

  // ---- what a self-match is ----------------------------------------------

  function Last(e: Entry): real { if e.tsLast.Some? then e.tsLast.value else e.tsFirst }

  predicate Near(a: real, b: real) { Abs(a - b) <= BID_SELF_FLOOR_EPS + MATCH_SLOP }

  /** Seconds since the price stopped standing; a clock that stepped back reads 0. */
  function AgeOf(e: Entry, now: Option<real>): Option<real> {
    if now.None? then None else Some(Max(0.0, now.value - Last(e)))
  }

  predicate Explains(e: Entry, floor: real, now: Option<real>, lag: real) {
    Near(floor, e.price) && (now.Some? ==> AgeOf(e, now).value <= lag)
  }

  predicate IsStanding(floor: real, standing: Option<real>) {
    standing.Some? && Near(floor, standing.value)
  }

  predicate IsSelf(floor: real, standing: Option<real>, hist: seq<Entry>, now: Option<real>, lag: real) {
    IsStanding(floor, standing) || exists e :: e in hist && Explains(e, floor, now, lag)
  }

  /** The declarative specification of a match: the standing bid wins, then the
      newest held price that explains the read. */
  ghost predicate Describes(m: Option<Match>, floor: real, standing: Option<real>,
                            hist: seq<Entry>, now: Option<real>, lag: real)
  {
    if IsStanding(floor, standing) then
      m == Some(Match(Standing, standing.value, Some(0.0)))
    else
      && (m.Some? <==> exists e :: e in hist && Explains(e, floor, now, lag))
      && (m.Some? ==>
            && m.value.kind == Prior
            && (exists e :: e in hist && Explains(e, floor, now, lag)
                            && m.value.price == e.price && m.value.age == AgeOf(e, now))
            && (now.Some? ==>
                  && m.value.age.Some?
                  && (forall e :: e in hist && Explains(e, floor, now, lag)
                                  ==> m.value.age.value <= AgeOf(e, now).value)))
  }

  method MarketFloorSelfMatch(marketMinBid: Option<real>, standing: Option<real>,
                              hist: seq<Entry>, now: Option<real>, lag: real)
    returns (best: Option<Match>)
    ensures marketMinBid.None? ==> best.None?
    ensures marketMinBid.Some? ==> Describes(best, marketMinBid.value, standing, hist, now, lag)
  {
    if marketMinBid.None? {
      return None;
    }
    var floor := marketMinBid.value;
    if standing.Some? && Near(floor, standing.value) {
      return Some(Match(Standing, standing.value, Some(0.0)));
    }
    best := None;
    for i := 0 to |hist|
      invariant Describes(best, floor, standing, hist[..i], now, lag)
    {
      var e := hist[i];
      assert hist[..i + 1] == hist[..i] + [e];
      var explains := Near(floor, e.price);
      var age: Option<real> := None;
      if explains && now.Some? {
        var a := now.value - Last(e);
        if a < 0.0 {
          a := 0.0;
        }
        age := Some(a);
        explains := a <= lag;
      }
      if explains {
        assert Explains(e, floor, now, lag);
        if best.None? || (age.Some? && best.value.age.Some? && age.value < best.value.age.value) {
          best := Some(Match(Prior, e.price, age));
        }
      }
    }
    assert hist[..|hist|] == hist;
  }

  /** The verdict and its age depend only on which in-window entries are present:
      reordering the history, repeating entries and dropping expired ones change
      neither. */
  lemma MatchIgnoresOrderAndExpiry(m: Option<Match>, m': Option<Match>, floor: real, standing: Option<real>,
                                   hist: seq<Entry>, hist': seq<Entry>, now: Option<real>, lag: real)
    requires Describes(m, floor, standing, hist, now, lag)
    requires Describes(m', floor, standing, hist', now, lag)
    requires forall e :: Explains(e, floor, now, lag) ==> (e in hist <==> e in hist')
    ensures m.Some? <==> m'.Some?
    ensures m.Some? ==> m.value.kind == m'.value.kind && m.value.age == m'.value.age
    ensures m.Some? <==> IsSelf(floor, standing, hist, now, lag)
  {
    if !IsStanding(floor, standing) && m.Some? {
      var e :| e in hist && Explains(e, floor, now, lag) && m.value.price == e.price && m.value.age == AgeOf(e, now);
      assert e in hist';
      var e' :| e' in hist' && Explains(e', floor, now, lag) && m'.value.price == e'.price && m'.value.age == AgeOf(e', now);
      assert e' in hist;
    }
  }

  // ---- the row guard -----------------------------------------------------

  function Foreign(rows: seq<real>, standing: Option<real>, hist: seq<Entry>, now: real): (r: seq<real>)
    ensures forall f :: f in r <==> f in rows && !IsSelf(f, standing, hist, Some(now), BID_SELF_FLOOR_LAG_S)
  {
    if rows == [] then []
    else
      var rest := Foreign(rows[..|rows| - 1], standing, hist, now);
      var f := rows[|rows| - 1];
      if IsSelf(f, standing, hist, Some(now), BID_SELF_FLOOR_LAG_S) then rest else rest + [f]
  }

  function Least(s: seq<real>): (m: real)
    requires s != []
    ensures m in s
    ensures forall x :: x in s ==> m <= x
  {
    assert s == s[..|s| - 1] + [s[|s| - 1]];
    if |s| == 1 then s[0] else Min(Least(s[..|s| - 1]), s[|s| - 1])
  }

  function ListedRows(market: Option<real>, rows: seq<real>): seq<real> {
    if rows == [] && market.Some? then [market.value] else rows
  }

  /** The floor this tick may be priced off. A scaled read while we are the
      tenant is a failed read; rows that are our own bid are dropped. */
  function GuardedFloor(market: Option<real>, rows: seq<real>, scaled: bool, tenant: bool,
                        standing: Option<real>, hist: seq<Entry>, now: real): Option<real>
  {
    var listed := ListedRows(market, rows);
    if !tenant then market
    else if scaled && listed != [] then None
    else
      var foreign := Foreign(listed, standing, hist, now);
      if |foreign| == |listed| then market
      else if foreign != [] then Some(Least(foreign))
      else None
  }

  /** Of the listing a tenant reads unscaled, the guard never hides a competitor: the
      floor is the market's own when no row is ours, and otherwise the cheapest row
      that is not; there is none exactly when every row is ours. */
  lemma CompetitorIsNeverHidden(market: Option<real>, rows: seq<real>, standing: Option<real>, hist: seq<Entry>, now: real)
    ensures var listed := ListedRows(market, rows);
            var floor := GuardedFloor(market, rows, false, true, standing, hist, now);
            && ((forall f :: f in listed ==> !Ours(f, standing, hist, now)) ==> floor == market)
            && ((exists f :: f in listed && Ours(f, standing, hist, now)) ==>
                  && (floor.None? <==> forall f :: f in listed ==> Ours(f, standing, hist, now))
                  && (floor.Some? ==>
                        && floor.value in listed && !Ours(floor.value, standing, hist, now)
                        && forall f :: f in listed && !Ours(f, standing, hist, now) ==> floor.value <= f))
  {
    hide IsSelf, Least;
    var listed := ListedRows(market, rows);
    ForeignLength(listed, standing, hist, now);
    var foreign := Foreign(listed, standing, hist, now);
    assert foreign != [] ==> foreign[0] in foreign;
  }

  predicate Ours(row: real, standing: Option<real>, hist: seq<Entry>, now: real) {
    IsSelf(row, standing, hist, Some(now), BID_SELF_FLOOR_LAG_S)
  }

  /** A row is ours exactly when it lies within half a tenth of a cent of the standing bid, or
      of a price held on this machine that last stood within the hour; the clock stepping
      back makes nothing older. */
  lemma OursExactly(row: real, standing: Option<real>, hist: seq<Entry>, now: real)
    ensures Ours(row, standing, hist, now) <==>
              || (standing.Some? && -0.000500001 <= row - standing.value <= 0.000500001)
              || exists e :: e in hist && -0.000500001 <= row - e.price <= 0.000500001
                             && now - (if e.tsLast.Some? then e.tsLast.value else e.tsFirst) <= 3600.0
  {
    assert forall e :: e in hist ==>
      (Explains(e, row, Some(now), 3600.0) <==>
         -0.000500001 <= row - e.price <= 0.000500001
         && now - (if e.tsLast.Some? then e.tsLast.value else e.tsFirst) <= 3600.0);
  }

  /** Who holds no box sees the market as it is; who does takes a scaled listing for no
      read, since a scaled price cannot be told from an echo. */
  lemma GuardIsForTenants(market: Option<real>, rows: seq<real>, scaled: bool, standing: Option<real>, hist: seq<Entry>, now: real)
    ensures GuardedFloor(market, rows, scaled, false, standing, hist, now) == market
    ensures GuardedFloor(market, rows, true, true, standing, hist, now) == None
    ensures rows == [] && market.None? ==> GuardedFloor(market, rows, scaled, true, standing, hist, now) == None
  {
  }

  lemma ForeignLength(rows: seq<real>, standing: Option<real>, hist: seq<Entry>, now: real)
    ensures |Foreign(rows, standing, hist, now)| <= |rows|
    ensures |Foreign(rows, standing, hist, now)| == |rows| <==>
            forall f :: f in rows ==> !IsSelf(f, standing, hist, Some(now), BID_SELF_FLOOR_LAG_S)
  {
    if rows != [] {
      var init, f := rows[..|rows| - 1], rows[|rows| - 1];
      ForeignLength(init, standing, hist, now);
      assert rows == init + [f];
    }
  }

  method SelfFloorGuard(market: Option<real>, rows: seq<real>, scaled: bool, tenant: bool,
                        standing: Option<real>, hist: seq<Entry>, now: real)
    returns (floor: Option<real>)
    ensures floor == GuardedFloor(market, rows, scaled, tenant, standing, hist, now)
  {
    hide IsSelf, Describes, Explains, IsStanding;
    var listed := rows;
    if listed == [] && market.Some? {
      listed := [market.value];
    }
    if tenant && scaled && listed != [] {
      return None;
    }
    var matched, visible := false, [];
    if tenant {
      for i := 0 to |listed|
        invariant visible == Foreign(listed[..i], standing, hist, now)
        invariant |visible| <= i && (matched <==> |visible| < i)
      {
        assert listed[..i + 1][..i] == listed[..i];
        var m := MarketFloorSelfMatch(Some(listed[i]), standing, hist, Some(now), BID_SELF_FLOOR_LAG_S);
        MatchIgnoresOrderAndExpiry(m, m, listed[i], standing, hist, hist, Some(now), BID_SELF_FLOOR_LAG_S);
        if m.Some? {
          matched := true;
        } else {
          visible := visible + [listed[i]];
        }
      }
      assert listed[..|listed|] == listed;
    }
    if matched {
      return if visible != [] then Some(Least(visible)) else None;
    }
    return market;
  }

  // ---- the recorded standing-bid series ----------------------------------

  function Unexpired(hist: seq<Entry>, cutoff: real): seq<Entry> {
    if hist == [] then []
    else
      var init := Unexpired(hist[..|hist| - 1], cutoff);
      var e := hist[|hist| - 1];
      if Last(e) >= cutoff then init + [e] else init
  }

  function Newest(hist: seq<Entry>): seq<Entry> {
    if |hist| <= BID_HISTORY_MAX then hist else hist[|hist| - BID_HISTORY_MAX..]
  }

  predicate SamePrice(e: Entry, bid: real, machine: string) {
    Abs(e.price - bid) <= BID_SELF_FLOOR_EPS && e.machine == machine
  }

  function Noted(hist: seq<Entry>, bid: Option<real>, machine: string, now: real): seq<Entry> {
    if bid.None? || bid.value <= 0.0 || machine == "" then hist
    else if hist != [] && SamePrice(hist[|hist| - 1], bid.value, machine) then
      hist[|hist| - 1 := hist[|hist| - 1].(tsLast := Some(now))]
    else
      Newest(Unexpired(hist + [Entry(now, bid.value, machine, Some(now))], now - BID_SELF_FLOOR_LAG_S))
  }

  function ForMachine(hist: seq<Entry>, machine: string): (r: seq<Entry>)
    ensures forall e :: e in r <==> e in hist && machine != "" && e.machine == machine
  {
    if hist == [] || machine == "" then []
    else
      var init := ForMachine(hist[..|hist| - 1], machine);
      var e := hist[|hist| - 1];
      if e.machine == machine then init + [e] else init
  }

  /** A lane's per-box bookkeeping: the dictionary both supervise lanes update in place. */
  class LaneContext {
    var bidHistory: seq<Entry>

    constructor ()
      ensures bidHistory == []
    {
      bidHistory := [];
    }

    method NoteStandingBid(bid: Option<real>, machine: string, now: real)
      modifies this
      ensures bidHistory == Noted(old(bidHistory), bid, machine, now)
    {
      if bid.None? || bid.value <= 0.0 {
        return;
      }
      if machine == "" {
        return;
      }
      if bidHistory != [] {
        var e := bidHistory[|bidHistory| - 1];
        if Abs(e.price - bid.value) <= BID_SELF_FLOOR_EPS && e.machine == machine {
          bidHistory := bidHistory[|bidHistory| - 1 := e.(tsLast := Some(now))];
          return;
        }
      }
      var grown := bidHistory + [Entry(now, bid.value, machine, Some(now))];
      var cutoff := now - BID_SELF_FLOOR_LAG_S;
      var kept: seq<Entry> := [];
      for i := 0 to |grown|
        invariant kept == Unexpired(grown[..i], cutoff)
      {
        assert grown[..i + 1][..i] == grown[..i];
        if Last(grown[i]) >= cutoff {
          kept := kept + [grown[i]];
        }
      }
      assert grown[..|grown|] == grown;
      if |kept| > BID_HISTORY_MAX {
        kept := kept[|kept| - BID_HISTORY_MAX..];
      }
      bidHistory := kept;
    }

    method BoxSwapReset()
      modifies this
      ensures bidHistory == []
    {
      bidHistory := [];
    }
  }

  // ---- the history remembers every price of the last hour ----------------

  /** One tick's observation of what the box's bid stands at. */
  datatype Held = Held(time: real, bid: real)

  function HistoryOf(trace: seq<Held>, machine: string): seq<Entry> {
    if trace == [] then []
    else
      var n := |trace| - 1;
      Noted(HistoryOf(trace[..n], machine), Some(trace[n].bid), machine, trace[n].time)
  }

  function LastChange(trace: seq<Held>): real
    requires trace != []
  {
    var n := |trace| - 1;
    if n == 0 || trace[n].bid != trace[n - 1].bid then trace[n].time else LastChange(trace[..n])
  }

  /** Clock never steps back, and two bid changes are at least one rate-limit interval
      apart. */
  predicate Paced(trace: seq<Held>) {
    trace == [] ||
    var n := |trace| - 1;
    && Paced(trace[..n])
    && trace[n].bid > 0.0
    && (n > 0 ==>
          && trace[n - 1].time <= trace[n].time
          && (trace[n].bid == trace[n - 1].bid || LastChange(trace[..n]) + BID_RATE_LIMIT_S <= trace[n].time))
  }

  /** A bid that moves at all moves further than the echo's rounding radius. */
  predicate Separated(trace: seq<Held>) {
    trace == [] ||
    var n := |trace| - 1;
    Separated(trace[..n]) && (n > 0 ==> Apart(trace[n - 1].bid, trace[n].bid))
  }

  predicate Apart(a: real, b: real) { a == b || Abs(b - a) > BID_SELF_FLOOR_EPS }

  ghost predicate InOrder(hist: seq<Entry>, machine: string) {
    && (forall k :: 0 <= k < |hist| ==> hist[k].machine == machine && hist[k].tsLast.Some?
                                        && hist[k].tsFirst <= Last(hist[k]))
    && (forall i, j :: 0 <= i < j < |hist| ==> Last(hist[i]) <= hist[j].tsFirst)
  }

  ghost predicate RateSpaced(hist: seq<Entry>) {
    forall i, j :: 0 <= i < j < |hist| ==> hist[i].tsFirst + (j - i) as real * BID_RATE_LIMIT_S <= hist[j].tsFirst
  }

  lemma InOrderSnoc(hist: seq<Entry>, e: Entry, machine: string)
    requires InOrder(hist, machine)
    requires e.machine == machine && e.tsLast == Some(e.tsFirst)
    requires hist != [] ==> Last(hist[|hist| - 1]) <= e.tsFirst
    ensures InOrder(hist + [e], machine)
  {
    var n := |hist|;
    forall i | 0 <= i < n ensures Last(hist[i]) <= e.tsFirst {
      if i < n - 1 {
        assert Last(hist[i]) <= hist[n - 1].tsFirst <= Last(hist[n - 1]);
      }
    }
  }

  lemma InOrderDrop(hist: seq<Entry>, k: nat, machine: string)
    requires InOrder(hist, machine) && k <= |hist|
    ensures InOrder(hist[k..], machine)
  {
  }

  lemma RateSpacedSnoc(hist: seq<Entry>, e: Entry)
    requires RateSpaced(hist)
    requires hist != [] ==> hist[|hist| - 1].tsFirst + BID_RATE_LIMIT_S <= e.tsFirst
    ensures RateSpaced(hist + [e])
  {
    var n, grown := |hist|, hist + [e];
    forall i, j | 0 <= i < j < |grown|
      ensures grown[i].tsFirst + (j - i) as real * BID_RATE_LIMIT_S <= grown[j].tsFirst
    {
      if j == n && i < n - 1 {
        assert hist[i].tsFirst + (n - 1 - i) as real * BID_RATE_LIMIT_S <= hist[n - 1].tsFirst;
      }
    }
  }

  lemma RateSpacedDrop(hist: seq<Entry>, k: nat)
    requires RateSpaced(hist) && k <= |hist|
    ensures RateSpaced(hist[k..])
  {
    forall i, j | 0 <= i < j < |hist| - k
      ensures hist[k..][i].tsFirst + (j - i) as real * BID_RATE_LIMIT_S <= hist[k..][j].tsFirst
    {
      assert hist[k + i].tsFirst + ((k + j) - (k + i)) as real * BID_RATE_LIMIT_S <= hist[k + j].tsFirst;
    }
  }

  ghost predicate Covers(hist: seq<Entry>, h: Held) {
    exists e :: e in hist && e.price == h.bid && h.time <= Last(e)
  }

  ghost predicate Remembers(hist: seq<Entry>, trace: seq<Held>, machine: string)
    requires trace != []
  {
    var now := trace[|trace| - 1];
    && InOrder(hist, machine)
    && RateSpaced(hist)
    && hist != []
    && hist[|hist| - 1] == Entry(LastChange(trace), now.bid, machine, Some(now.time))
    && CoversHour(hist, trace)
  }

  /** Every price held in the last hour is on record, as of when it last stood. */
  ghost predicate CoversHour(hist: seq<Entry>, trace: seq<Held>)
    requires trace != []
  {
    forall j :: 0 <= j < |trace| && trace[|trace| - 1].time - trace[j].time <= BID_SELF_FLOOR_LAG_S
                ==> Covers(hist, trace[j])
  }

  /** Prices on the $0.001 grid are separated. */
  lemma {:induction false} GridIsSeparated(trace: seq<Held>)
    requires forall i :: 0 <= i < |trace| ==> OnGrid(trace[i].bid)
    ensures Separated(trace)
  {
    if trace != [] {
      var n := |trace| - 1;
      GridIsSeparated(trace[..n]);
      if n > 0 {
        assert OnGrid(trace[n - 1].bid) && OnGrid(trace[n].bid);
        GridPointsApart(trace[n - 1].bid, trace[n].bid);
      }
    }
  }

  lemma GridPointsApart(a: real, b: real)
    requires OnGrid(a) && OnGrid(b)
    ensures Apart(a, b)
  {
    var x, y := (a * 1000.0).Floor, (b * 1000.0).Floor;
    assert Abs(b - a) <= BID_SELF_FLOOR_EPS ==> Abs((y - x) as real) <= 0.5;
  }

  /** Expiry removes a prefix: the entries are in time order. */
  lemma UnexpiredIsSuffix(hist: seq<Entry>, cutoff: real, machine: string) returns (k: nat)
    requires InOrder(hist, machine)
    ensures k <= |hist| && Unexpired(hist, cutoff) == hist[k..]
    ensures forall i :: 0 <= i < k ==> Last(hist[i]) < cutoff
    ensures k < |hist| ==> Last(hist[k]) >= cutoff
  {
    hide InOrder, Last;
    if hist == [] {
      k := 0;
    } else {
      var n := |hist| - 1;
      InOrderInit(hist, machine);
      k := UnexpiredIsSuffix(hist[..n], cutoff, machine);
      if k < n {
        LastsSorted(hist, machine, k, n);
        assert hist[..n][k..] + [hist[n]] == hist[k..];
      } else if Last(hist[n]) >= cutoff {
        assert hist[k..] == [hist[n]];
      } else {
        k := n + 1;
      }
    }
  }

  lemma InOrderInit(hist: seq<Entry>, machine: string)
    requires InOrder(hist, machine) && hist != []
    ensures InOrder(hist[..|hist| - 1], machine)
  {
  }

  lemma LastsSorted(hist: seq<Entry>, machine: string, i: nat, j: nat)
    requires InOrder(hist, machine) && i < j < |hist|
    ensures Last(hist[i]) <= Last(hist[j])
  {
  }

  lemma UnexpiredSnoc(init: seq<Entry>, e: Entry, cutoff: real)
    ensures Unexpired(init + [e], cutoff) == Unexpired(init, cutoff) + if Last(e) >= cutoff then [e] else []
  {
    assert (init + [e])[..|init|] == init;
  }

  /** An hour holds at most 62 rate-limited prices, so the length cap never bites. */
  lemma HourFitsTheCap(hist: seq<Entry>, now: real, machine: string)
    requires InOrder(hist, machine) && RateSpaced(hist)
    requires hist != [] && hist[|hist| - 1].tsFirst == now
    requires Last(hist[0]) >= now - BID_SELF_FLOOR_LAG_S
    ensures |hist| <= BID_HISTORY_MAX
  {
    if |hist| > 1 {
      assert Last(hist[0]) <= hist[1].tsFirst;
      assert |hist| > 2 ==> (|hist| - 2) as real * BID_RATE_LIMIT_S <= BID_SELF_FLOOR_LAG_S;
    }
  }

  lemma FirstPriceRemembered(h: Held, machine: string)
    requires Paced([h]) && machine != ""
    ensures Remembers(HistoryOf([h], machine), [h], machine)
  {
    var e := Entry(h.time, h.bid, machine, Some(h.time));
    assert [h][..0] == [];
    UnexpiredSnoc([], e, h.time - BID_SELF_FLOOR_LAG_S);
    assert HistoryOf([h], machine) == [e];
    assert e in [e];
  }

  /** A bid that moved far enough is a new entry. */
  lemma MoveAppends(hist: seq<Entry>, trace: seq<Held>, machine: string)
    requires |trace| > 1 && Paced(trace) && machine != ""
    requires Remembers(hist, trace[..|trace| - 1], machine)
    requires Abs(trace[|trace| - 1].bid - trace[|trace| - 2].bid) > BID_SELF_FLOOR_EPS
    ensures var now := trace[|trace| - 1];
            Noted(hist, Some(now.bid), machine, now.time)
            == Newest(Unexpired(hist + [Entry(now.time, now.bid, machine, Some(now.time))],
                                now.time - BID_SELF_FLOOR_LAG_S))
  {
    var n := |trace| - 1;
    assert trace[..n][n - 1] == trace[n - 1];
  }

  lemma {:induction false} HistoryRemembersTheHour(trace: seq<Held>, machine: string)
    requires trace != [] && Paced(trace) && Separated(trace) && machine != ""
    ensures Remembers(HistoryOf(trace, machine), trace, machine)
  {
    hide RateSpaced, InOrder, CoversHour, Unexpired, Newest;
    var n := |trace| - 1;
    if n == 0 {
      assert trace == [trace[0]];
      FirstPriceRemembered(trace[0], machine);
    } else {
      var before := trace[..n];
      var hist := HistoryOf(before, machine);
      HistoryRemembersTheHour(before, machine);
      if trace[n].bid == trace[n - 1].bid {
        RefreshCovers(hist, HistoryOf(trace, machine), trace, machine);
      } else {
        MoveAppends(hist, trace, machine);
        AppendCovers(hist, HistoryOf(trace, machine), trace, machine);
      }
    }
  }

  /** What the record never loses sight of, tick after tick. */
  ghost predicate NeverForgets(trace: seq<Held>, machine: string) {
    forall k :: 0 < k <= |trace| ==> CoversHour(HistoryOf(trace[..k], machine), trace[..k])
  }

  /** The record holds every price of the last hour at every tick exactly when no bid
      ever moves by less than the echo's rounding radius: on the grid or off it, such a
      move merges into the price before it and is forgotten there and then. */
  lemma {:induction false} MemoryExactly(trace: seq<Held>, machine: string)
    requires Paced(trace) && machine != ""
    ensures NeverForgets(trace, machine) <==> Separated(trace)
  {
    hide CoversHour, HistoryOf;
    if trace != [] {
      var n := |trace| - 1;
      var before := trace[..n];
      MemoryExactly(before, machine);
      assert forall k :: 0 < k <= n ==> before[..k] == trace[..k];
      assert trace[..n + 1] == trace;
      assert NeverForgets(trace, machine) <==>
             NeverForgets(before, machine) && CoversHour(HistoryOf(trace, machine), trace);
      if Separated(trace) {
        HistoryRemembersTheHour(trace, machine);
      } else if Separated(before) {
        MergeForgets(trace, machine);
      }
    }
  }

  lemma MergeForgets(trace: seq<Held>, machine: string)
    requires |trace| > 1 && Paced(trace) && machine != ""
    requires Separated(trace[..|trace| - 1]) && !Apart(trace[|trace| - 2].bid, trace[|trace| - 1].bid)
    ensures !CoversHour(HistoryOf(trace, machine), trace)
  {
    hide RateSpaced;
    var n := |trace| - 1;
    var before, now := trace[..n], trace[n];
    var hist, after := HistoryOf(before, machine), HistoryOf(trace, machine);
    HistoryRemembersTheHour(before, machine);
    assert before[n - 1] == trace[n - 1];
    var m := |hist| - 1;
    assert after == hist[m := hist[m].(tsLast := Some(now.time))];
    assert LastChange(before) < now.time;
    forall e | e in after ensures !(e.price == now.bid && now.time <= Last(e)) {
      var i :| 0 <= i < |after| && after[i] == e;
      assert i < m ==> Last(hist[i]) <= hist[m].tsFirst;
    }
    assert !Covers(after, now);
  }

  // ---- what the cap forgets ------------------------------------------------------

  /** Positive bids on a clock that never steps back, moved at any rate. */
  predicate Clocked(trace: seq<Held>) {
    trace == [] ||
    var n := |trace| - 1;
    Clocked(trace[..n]) && trace[n].bid > 0.0 && (n > 0 ==> trace[n - 1].time <= trace[n].time)
  }

  /** The series as it would be were nothing ever dropped: one entry a stretch. */
  function FullRecord(trace: seq<Held>, machine: string): seq<Entry> {
    if trace == [] then []
    else
      var h := trace[|trace| - 1];
      var full := FullRecord(trace[..|trace| - 1], machine);
      if full != [] && SamePrice(full[|full| - 1], h.bid, machine)
      then full[|full| - 1 := full[|full| - 1].(tsLast := Some(h.time))]
      else full + [Entry(h.time, h.bid, machine, Some(h.time))]
  }

  /** `hist` is what is left of the full record from entry `k` on: everything before that
      is an hour old by `now`, or has the cap's worth of entries after it. */
  ghost predicate LeftFrom(hist: seq<Entry>, full: seq<Entry>, k: nat, machine: string, now: real) {
    && k <= |full| && hist == full[k..] && |hist| <= BID_HISTORY_MAX
    && InOrder(full, machine)
    && (full != [] ==> hist != [] && Last(full[|full| - 1]) == now)
    && forall i :: 0 <= i < k ==> Last(full[i]) < now - BID_SELF_FLOOR_LAG_S || |full| - i > BID_HISTORY_MAX
  }

  /** What has been lost before `k` is an hour old at the cutoff, or surplus. */
  ghost predicate LostRightly(full: seq<Entry>, k: nat, cutoff: real) {
    forall i :: 0 <= i < k && i < |full| ==> Last(full[i]) < cutoff || |full| - i > BID_HISTORY_MAX
  }

  lemma ExpiryLoses(full: seq<Entry>, k: nat, machine: string, cutoff: real) returns (j: nat)
    requires k <= |full| && InOrder(full, machine) && LostRightly(full, k, cutoff)
    ensures k <= j <= |full| && Unexpired(full[k..], cutoff) == full[j..] && LostRightly(full, j, cutoff)
  {
    InOrderDrop(full, k, machine);
    hide InOrder, Unexpired, Last;
    var d := UnexpiredIsSuffix(full[k..], cutoff, machine);
    j := k + d;
    assert full[k..][d..] == full[j..];
    forall i | k <= i < j ensures Last(full[i]) < cutoff {
      assert full[k..][i - k] == full[i];
    }
  }

  lemma CapLoses(full: seq<Entry>, j: nat, cutoff: real) returns (k: nat)
    requires j <= |full| && LostRightly(full, j, cutoff)
    ensures k <= |full| && Newest(full[j..]) == full[k..] && LostRightly(full, k, cutoff)
    ensures |Newest(full[j..])| <= BID_HISTORY_MAX && (j < |full| ==> k < |full|)
  {
    hide Last;
    k := if |full| - j <= BID_HISTORY_MAX then j else |full| - BID_HISTORY_MAX;
    assert Newest(full[j..]) == full[k..];
  }

  /** One move: the fresh entry goes on, then the expired go, then the surplus. */
  lemma AppendLeaves(hist: seq<Entry>, full: seq<Entry>, k: nat, e: Entry, machine: string, now: real) returns (k': nat)
    requires LeftFrom(hist, full, k, machine, now) && now <= e.tsFirst
    requires e.machine == machine && e.tsLast == Some(e.tsFirst)
    ensures LeftFrom(Newest(Unexpired(hist + [e], e.tsFirst - BID_SELF_FLOOR_LAG_S)), full + [e], k', machine, e.tsFirst)
  {
    var grown, cutoff := full + [e], e.tsFirst - BID_SELF_FLOOR_LAG_S;
    LeftThen(hist, full, k, e, machine, now);
    hide InOrder, Newest, Unexpired, LostRightly, LeftFrom, Last;
    var j := ExpiryLoses(grown, k, machine, cutoff);
    LastStays(grown, j, k, cutoff);
    k' := CapLoses(grown, j, cutoff);
    LeftNow(grown, k', machine, e.tsFirst);
  }

  lemma LeftThen(hist: seq<Entry>, full: seq<Entry>, k: nat, e: Entry, machine: string, now: real)
    requires LeftFrom(hist, full, k, machine, now) && now <= e.tsFirst
    requires e.machine == machine && e.tsLast == Some(e.tsFirst)
    ensures var grown, cutoff := full + [e], e.tsFirst - BID_SELF_FLOOR_LAG_S;
            && k < |grown| && grown[k..] == hist + [e] && InOrder(grown, machine)
            && LostRightly(grown, k, cutoff)
            && Last(grown[|grown| - 1]) == e.tsFirst >= cutoff
  {
    InOrderSnoc(full, e, machine);
    hide InOrder, LostRightly;
    LossesStay(full, e, k, now, e.tsFirst - BID_SELF_FLOOR_LAG_S);
  }

  lemma LeftNow(full: seq<Entry>, k: nat, machine: string, now: real)
    requires k < |full| && InOrder(full, machine) && LostRightly(full, k, now - BID_SELF_FLOOR_LAG_S)
    requires |full[k..]| <= BID_HISTORY_MAX && Last(full[|full| - 1]) == now
    ensures LeftFrom(full[k..], full, k, machine, now)
  {
    hide InOrder;
  }

  lemma LossesStay(full: seq<Entry>, e: Entry, k: nat, now: real, cutoff: real)
    requires k <= |full| && now - BID_SELF_FLOOR_LAG_S <= cutoff
    requires forall i :: 0 <= i < k ==> Last(full[i]) < now - BID_SELF_FLOOR_LAG_S || |full| - i > BID_HISTORY_MAX
    ensures LostRightly(full + [e], k, cutoff)
  {
    hide Last;
    forall i | 0 <= i < k ensures Last((full + [e])[i]) < cutoff || |full + [e]| - i > BID_HISTORY_MAX {
      assert (full + [e])[i] == full[i];
    }
  }

  lemma LastStays(full: seq<Entry>, j: nat, k: nat, cutoff: real)
    requires k < |full| && Last(full[|full| - 1]) >= cutoff && j <= |full|
    requires Unexpired(full[k..], cutoff) == full[j..]
    ensures j < |full|
  {
    var n := |full| - 1;
    assert full[k..][..|full[k..]| - 1] + [full[n]] == full[k..];
    UnexpiredSnoc(full[k..][..|full[k..]| - 1], full[n], cutoff);
  }

  lemma RefreshLeaves(hist: seq<Entry>, full: seq<Entry>, k: nat, machine: string, now: real, later: real)
    requires LeftFrom(hist, full, k, machine, now) && now <= later && full != []
    ensures LeftFrom(hist[|hist| - 1 := hist[|hist| - 1].(tsLast := Some(later))],
                     full[|full| - 1 := full[|full| - 1].(tsLast := Some(later))], k, machine, later)
  {
    var n := |full| - 1;
    InOrderRefresh(full, full[n := full[n].(tsLast := Some(later))], later, machine);
    hide InOrder;
    assert hist[|hist| - 1] == full[n];
  }

  lemma {:induction false} HistoryIsLeft(trace: seq<Held>, machine: string) returns (k: nat)
    requires Clocked(trace) && machine != ""
    ensures LeftFrom(HistoryOf(trace, machine), FullRecord(trace, machine), k, machine,
                     if trace == [] then 0.0 else trace[|trace| - 1].time)
    ensures trace != [] ==> FullRecord(trace, machine) != []
  {
    hide LeftFrom, Newest, Unexpired;
    if trace == [] {
      k := 0;
      assert LeftFrom([], [], 0, machine, 0.0) by { NothingLeft(machine, 0.0); }
    } else {
      var n := |trace| - 1;
      var before, h := trace[..n], trace[n];
      var hist, full := HistoryOf(before, machine), FullRecord(before, machine);
      k := HistoryIsLeft(before, machine);
      var now := if n == 0 then h.time else trace[n - 1].time;
      if full == [] {
        assert hist == [] by { NothingLeftOf(hist, k, machine, 0.0); }
        assert LeftFrom([], [], 0, machine, now) by { NothingLeft(machine, now); }
        k := AppendLeaves([], [], 0, Entry(h.time, h.bid, machine, Some(h.time)), machine, now);
      } else {
        assert n > 0 && before[n - 1] == trace[n - 1];
        SameEnd(hist, full, k, machine, now);
        if SamePrice(full[|full| - 1], h.bid, machine) {
          RefreshLeaves(hist, full, k, machine, now, h.time);
        } else {
          k := AppendLeaves(hist, full, k, Entry(h.time, h.bid, machine, Some(h.time)), machine, now);
        }
      }
    }
  }

  lemma NothingLeft(machine: string, now: real)
    ensures LeftFrom([], [], 0, machine, now)
  {
  }

  lemma NothingLeftOf(hist: seq<Entry>, k: nat, machine: string, now: real)
    requires LeftFrom(hist, [], k, machine, now)
    ensures hist == []
  {
  }

  lemma SameEnd(hist: seq<Entry>, full: seq<Entry>, k: nat, machine: string, now: real)
    requires LeftFrom(hist, full, k, machine, now) && full != []
    ensures hist != [] && hist[|hist| - 1] == full[|full| - 1]
  {
  }

  /** However fast the bid is moved, the series is a tail of the full record, and of the
      stretches that ended within the hour it has lost exactly those with seventy-two or
      more stretches after them. */
  lemma CapForgetsExactly(trace: seq<Held>, machine: string)
    requires Clocked(trace) && machine != "" && trace != []
    ensures var hist, full := HistoryOf(trace, machine), FullRecord(trace, machine);
            && |hist| <= |full| && hist == full[|full| - |hist|..]
            && forall i :: 0 <= i < |full| && Last(full[i]) >= trace[|trace| - 1].time - BID_SELF_FLOOR_LAG_S ==>
                 (i < |full| - |hist| <==> |full| - i > BID_HISTORY_MAX)
  {
    hide InOrder;
    var k := HistoryIsLeft(trace, machine);
  }

  lemma RateSpacedRefresh(hist: seq<Entry>, after: seq<Entry>)
    requires RateSpaced(hist) && |after| == |hist|
    requires forall k :: 0 <= k < |hist| ==> after[k].tsFirst == hist[k].tsFirst
    ensures RateSpaced(after)
  {
    forall i, j | 0 <= i < j < |after|
      ensures after[i].tsFirst + (j - i) as real * BID_RATE_LIMIT_S <= after[j].tsFirst
    {
      assert hist[i].tsFirst + (j - i) as real * BID_RATE_LIMIT_S <= hist[j].tsFirst;
    }
  }

  lemma InOrderRefresh(hist: seq<Entry>, after: seq<Entry>, now: real, machine: string)
    requires InOrder(hist, machine) && hist != [] && Last(hist[|hist| - 1]) <= now
    requires after == hist[|hist| - 1 := hist[|hist| - 1].(tsLast := Some(now))]
    ensures InOrder(after, machine)
  {
  }

  lemma RefreshCovers(hist: seq<Entry>, after: seq<Entry>, trace: seq<Held>, machine: string)
    requires |trace| > 1 && Paced(trace)
    requires Remembers(hist, trace[..|trace| - 1], machine)
    requires trace[|trace| - 1].bid == trace[|trace| - 2].bid
    requires after == hist[|hist| - 1 := hist[|hist| - 1].(tsLast := Some(trace[|trace| - 1].time))]
    ensures Remembers(after, trace, machine)
  {
    hide RateSpaced, InOrder;
    var n, m := |trace| - 1, |hist| - 1;
    var now := trace[n];
    assert trace[..n][n - 1] == trace[n - 1];
    RateSpacedRefresh(hist, after);
    InOrderRefresh(hist, after, now.time, machine);
    assert after[m] == Entry(LastChange(trace), now.bid, machine, Some(now.time));
    forall j | 0 <= j < |trace| && now.time - trace[j].time <= BID_SELF_FLOOR_LAG_S
      ensures Covers(after, trace[j])
    {
      if j == n {
        assert after[m] in after;
      } else {
        assert trace[..n][j] == trace[j] && Covers(hist, trace[j]);
        var k :| 0 <= k < |hist| && hist[k].price == trace[j].bid && trace[j].time <= Last(hist[k]);
        assert after[k] in after;
      }
    }
  }

  /** Appending a price drops expired entries and nothing else. */
  lemma AppendKeeps(hist: seq<Entry>, e: Entry, machine: string) returns (k: nat)
    requires InOrder(hist, machine) && RateSpaced(hist)
    requires e.machine == machine && e.tsLast == Some(e.tsFirst)
    requires hist != [] ==> Last(hist[|hist| - 1]) <= e.tsFirst
                            && hist[|hist| - 1].tsFirst + BID_RATE_LIMIT_S <= e.tsFirst
    ensures var grown := hist + [e];
            var cutoff := e.tsFirst - BID_SELF_FLOOR_LAG_S;
            && k <= |hist|
            && Newest(Unexpired(grown, cutoff)) == grown[k..]
            && InOrder(grown[k..], machine) && RateSpaced(grown[k..])
            && forall i :: 0 <= i < k ==> Last(grown[i]) < cutoff
  {
    hide RateSpaced, InOrder, Unexpired;
    var grown := hist + [e];
    InOrderSnoc(hist, e, machine);
    RateSpacedSnoc(hist, e);
    k := UnexpiredIsSuffix(grown, e.tsFirst - BID_SELF_FLOOR_LAG_S, machine);
    assert grown[|hist|] == e;
    InOrderDrop(grown, k, machine);
    RateSpacedDrop(grown, k);
    HourFitsTheCap(grown[k..], e.tsFirst, machine);
  }

  lemma AppendCovers(hist: seq<Entry>, after: seq<Entry>, trace: seq<Held>, machine: string)
    requires |trace| > 1 && Paced(trace)
    requires Remembers(hist, trace[..|trace| - 1], machine)
    requires trace[|trace| - 1].bid != trace[|trace| - 2].bid
    requires var now := trace[|trace| - 1];
             after == Newest(Unexpired(hist + [Entry(now.time, now.bid, machine, Some(now.time))],
                                       now.time - BID_SELF_FLOOR_LAG_S))
    ensures Remembers(after, trace, machine)
  {
    hide RateSpaced, InOrder, Unexpired, Newest;
    var n := |trace| - 1;
    var now := trace[n];
    var e := Entry(now.time, now.bid, machine, Some(now.time));
    assert trace[..n][n - 1] == trace[n - 1];
    var k := AppendKeeps(hist, e, machine);
    var grown := hist + [e];
    assert after[|after| - 1] == e;
    forall j | 0 <= j < |trace| && now.time - trace[j].time <= BID_SELF_FLOOR_LAG_S
      ensures Covers(after, trace[j])
    {
      if j == n {
        assert e in after;
      } else {
        assert trace[..n][j] == trace[j] && Covers(hist, trace[j]);
        var i :| 0 <= i < |hist| && hist[i].price == trace[j].bid && trace[j].time <= Last(hist[i]);
        assert grown[i] == hist[i] && i >= k;
        assert after[i - k] in after;
      }
    }
  }

  // ---- across a swap ---------------------------------------------------------------

  datatype SeriesEvent = Note(h: Held) | Swap

  /** The series a lane holds after its notes and box swaps. */
  function SeriesOf(events: seq<SeriesEvent>, machine: string): seq<Entry> {
    if events == [] then []
    else
      match events[|events| - 1]
      case Note(h) => Noted(SeriesOf(events[..|events| - 1], machine), Some(h.bid), machine, h.time)
      case Swap => []
  }

  function Notes(trace: seq<Held>): seq<SeriesEvent> { seq(|trace|, i requires 0 <= i < |trace| => Note(trace[i])) }

  /** A swap forgets every price of the box before it, even on the same machine, and
      nothing of the box after it: all that is said of a trace holds from the swap on. */
  lemma {:induction false} SwapStartsAfresh(before: seq<SeriesEvent>, trace: seq<Held>, machine: string)
    ensures SeriesOf(before + [Swap] + Notes(trace), machine) == HistoryOf(trace, machine)
  {
    hide Noted;
    var all := before + [Swap] + Notes(trace);
    if trace == [] {
      assert all == before + [Swap];
    } else {
      var n := |trace| - 1;
      SwapStartsAfresh(before, trace[..n], machine);
      assert all[..|all| - 1] == before + [Swap] + Notes(trace[..n]);
    }
  }

  // ---- immunity ----------------------------------------------------------

  /** The row is, to within the echo's rounding radius, a price this box held
      during the last hour. */
  ghost predicate EchoOfLastHour(row: real, trace: seq<Held>)
    requires trace != []
  {
    exists j :: 0 <= j < |trace| && Abs(row - trace[j].bid) <= BID_SELF_FLOOR_EPS
                && trace[|trace| - 1].time - trace[j].time <= BID_SELF_FLOOR_LAG_S
  }

  lemma EchoIsSelf(row: real, trace: seq<Held>, machine: string, standing: Option<real>)
    requires trace != [] && Paced(trace) && Separated(trace) && machine != ""
    requires EchoOfLastHour(row, trace)
    ensures IsSelf(row, standing, ForMachine(HistoryOf(trace, machine), machine),
                   Some(trace[|trace| - 1].time), BID_SELF_FLOOR_LAG_S)
  {
    var now := trace[|trace| - 1].time;
    var j :| 0 <= j < |trace| && Abs(row - trace[j].bid) <= BID_SELF_FLOOR_EPS
             && now - trace[j].time <= BID_SELF_FLOOR_LAG_S;
    var e := HourCovered(trace, machine, j);
    assert Explains(e, row, Some(now), BID_SELF_FLOOR_LAG_S);
    assert e in ForMachine(HistoryOf(trace, machine), machine);
  }

  lemma HourCovered(trace: seq<Held>, machine: string, j: nat) returns (e: Entry)
    requires j < |trace| && Paced(trace) && Separated(trace) && machine != ""
    requires trace[|trace| - 1].time - trace[j].time <= BID_SELF_FLOOR_LAG_S
    ensures e in HistoryOf(trace, machine) && e.machine == machine
    ensures e.price == trace[j].bid && trace[j].time <= Last(e)
  {
    HistoryRemembersTheHour(trace, machine);
    var hist := HistoryOf(trace, machine);
    assert Covers(hist, trace[j]);
    e :| e in hist && e.price == trace[j].bid && trace[j].time <= Last(e);
  }

  /** While we are the tenant, a listing made only of our own recent prices is no
      market at all. */
  lemma EchoOnlyListingIsNoMarket(trace: seq<Held>, machine: string, market: Option<real>, rows: seq<real>,
                                  scaled: bool, standing: Option<real>)
    requires trace != [] && Paced(trace) && Separated(trace) && machine != ""
    requires ListedRows(market, rows) != []
    requires forall f :: f in ListedRows(market, rows) ==> EchoOfLastHour(f, trace)
    ensures GuardedFloor(market, rows, scaled, true, standing,
                         ForMachine(HistoryOf(trace, machine), machine), trace[|trace| - 1].time).None?
  {
    var now := trace[|trace| - 1].time;
    var mine := ForMachine(HistoryOf(trace, machine), machine);
    var listed := ListedRows(market, rows);
    forall f | f in listed
      ensures IsSelf(f, standing, mine, Some(now), BID_SELF_FLOOR_LAG_S)
    {
      EchoIsSelf(f, trace, machine, standing);
    }
    AllSelfIsNoMarket(market, rows, scaled, standing, mine, now);
  }

  lemma NoForeign(rows: seq<real>, standing: Option<real>, hist: seq<Entry>, now: real)
    requires forall f :: f in rows ==> IsSelf(f, standing, hist, Some(now), BID_SELF_FLOOR_LAG_S)
    ensures Foreign(rows, standing, hist, now) == []
  {
    if rows != [] {
      assert rows[|rows| - 1] in rows;
      NoForeign(rows[..|rows| - 1], standing, hist, now);
    }
  }

  lemma AllSelfIsNoMarket(market: Option<real>, rows: seq<real>, scaled: bool, standing: Option<real>,
                          hist: seq<Entry>, now: real)
    requires ListedRows(market, rows) != []
    requires forall f :: f in ListedRows(market, rows) ==> IsSelf(f, standing, hist, Some(now), BID_SELF_FLOOR_LAG_S)
    ensures GuardedFloor(market, rows, scaled, true, standing, hist, now).None?
  {
    NoForeign(ListedRows(market, rows), standing, hist, now);
  }

  /** A merged price does cost immunity: once the bid has moved on, the second of two
      prices that merged is echoed by some row that the guard takes for a competitor,
      exactly when they differ by more than the matcher's own slop. */
  lemma MergedEchoEscapesExactly(first: Held, merged: Held, current: Held, machine: string)
    requires var trace := [first, merged, current]; Paced(trace) && machine != ""
    requires !Apart(first.bid, merged.bid) && Abs(current.bid - merged.bid) > 3.0 * BID_SELF_FLOOR_EPS
    requires current.time - merged.time <= BID_SELF_FLOOR_LAG_S
    ensures (exists row :: Abs(row - merged.bid) <= BID_SELF_FLOOR_EPS
                           && EscapesGuard(row, [first, merged, current], machine))
            <==> Abs(merged.bid - first.bid) > MATCH_SLOP
  {
    hide Paced;
    var trace := [first, merged, current];
    forall row | Abs(row - merged.bid) <= BID_SELF_FLOOR_EPS
      ensures EscapesGuard(row, trace, machine) <==> !Near(row, first.bid)
    {
      MergedRow(first, merged, current, machine, row);
    }
    var far := if merged.bid > first.bid then merged.bid + BID_SELF_FLOOR_EPS else merged.bid - BID_SELF_FLOOR_EPS;
    assert Abs(far - merged.bid) <= BID_SELF_FLOOR_EPS;
    assert Near(far, first.bid) <==> Abs(merged.bid - first.bid) <= MATCH_SLOP;
  }

  /** The guard prices off this row, read alone while the trace's last bid stands. */
  predicate EscapesGuard(row: real, trace: seq<Held>, machine: string)
    requires trace != []
  {
    var now := trace[|trace| - 1];
    GuardedFloor(Some(row), [], false, true, Some(now.bid), ForMachine(HistoryOf(trace, machine), machine), now.time)
    == Some(row)
  }

  lemma MergedRow(first: Held, merged: Held, current: Held, machine: string, row: real)
    requires var trace := [first, merged, current]; Paced(trace) && machine != ""
    requires !Apart(first.bid, merged.bid) && Abs(current.bid - merged.bid) > 3.0 * BID_SELF_FLOOR_EPS
    requires current.time - merged.time <= BID_SELF_FLOOR_LAG_S && Abs(row - merged.bid) <= BID_SELF_FLOOR_EPS
    ensures EscapesGuard(row, [first, merged, current], machine) <==> !Near(row, first.bid)
  {
    var trace := [first, merged, current];
    var held := Entry(first.time, first.bid, machine, Some(merged.time));
    var last := Entry(current.time, current.bid, machine, Some(current.time));
    MergedHistory(first, merged, current, machine);
    hide HistoryOf, Paced, Foreign, IsSelf;
    var mine := ForMachine([held, last], machine);
    assert held in [held, last] && held in mine;
    assert forall e :: e in mine ==> e == held || e == last;
    assert Explains(held, row, Some(current.time), BID_SELF_FLOOR_LAG_S) <==> Near(row, first.bid);
    assert IsSelf(row, Some(current.bid), mine, Some(current.time), BID_SELF_FLOOR_LAG_S) <==> Near(row, first.bid) by {
      OnlyOneExplains(row, current, mine, held, last);
    }
    ForeignLength([row], Some(current.bid), mine, current.time);
  }

  lemma OnlyOneExplains(row: real, current: Held, hist: seq<Entry>, held: Entry, last: Entry)
    requires held in hist && forall e :: e in hist ==> e == held || e == last
    requires last.price == current.bid && !Near(row, current.bid)
    ensures IsSelf(row, Some(current.bid), hist, Some(current.time), BID_SELF_FLOOR_LAG_S)
            <==> Explains(held, row, Some(current.time), BID_SELF_FLOOR_LAG_S)
  {
  }

  lemma PacedSnoc(before: seq<Held>, h: Held)
    ensures Paced(before + [h]) <==>
              && Paced(before) && h.bid > 0.0
              && (before != [] ==>
                    var last := before[|before| - 1];
                    last.time <= h.time && (h.bid == last.bid || LastChange(before) + BID_RATE_LIMIT_S <= h.time))
  {
    assert (before + [h])[..|before|] == before;
  }

  lemma HistorySnoc(before: seq<Held>, h: Held, machine: string)
    ensures HistoryOf(before + [h], machine) == Noted(HistoryOf(before, machine), Some(h.bid), machine, h.time)
  {
    assert (before + [h])[..|before|] == before;
  }

  lemma NotedAfresh(hist: seq<Entry>, h: Held, machine: string)
    requires h.bid > 0.0 && machine != "" && |hist| <= 1
    requires hist != [] ==> Last(hist[0]) >= h.time - BID_SELF_FLOOR_LAG_S && !SamePrice(hist[0], h.bid, machine)
    ensures Noted(hist, Some(h.bid), machine, h.time) == hist + [Entry(h.time, h.bid, machine, Some(h.time))]
  {
    hide Unexpired;
    var e, cutoff := Entry(h.time, h.bid, machine, Some(h.time)), h.time - BID_SELF_FLOOR_LAG_S;
    UnexpiredSnoc(hist, e, cutoff);
    assert Unexpired(hist, cutoff) == hist by {
      UnexpiredOfOne(hist, cutoff);
    }
  }

  lemma UnexpiredOfOne(hist: seq<Entry>, cutoff: real)
    requires |hist| <= 1 && (hist != [] ==> Last(hist[0]) >= cutoff)
    ensures Unexpired(hist, cutoff) == hist
  {
    if hist != [] {
      assert hist[..0] == [];
    }
  }

  lemma MergedHistory(first: Held, merged: Held, current: Held, machine: string)
    requires Paced([first, merged, current]) && machine != ""
    requires !Apart(first.bid, merged.bid) && Abs(current.bid - merged.bid) > 3.0 * BID_SELF_FLOOR_EPS
    requires current.time - merged.time <= BID_SELF_FLOOR_LAG_S
    ensures HistoryOf([first, merged, current], machine)
            == [Entry(first.time, first.bid, machine, Some(merged.time)),
                Entry(current.time, current.bid, machine, Some(current.time))]
  {
    hide Paced, HistoryOf, Noted;
    assert [first] == [] + [first] && [first, merged] == [first] + [merged]
           && [first, merged, current] == [first, merged] + [current];
    PacedSnoc([], first);
    PacedSnoc([first], merged);
    PacedSnoc([first, merged], current);
    HistorySnoc([], first, machine);
    HistorySnoc([first], merged, machine);
    HistorySnoc([first, merged], current, machine);
    var seeded := Entry(first.time, first.bid, machine, Some(first.time));
    assert HistoryOf([], machine) == [] by { NoHistory(machine); }
    NotedAfresh([], first, machine);
    assert HistoryOf([first], machine) == [seeded];
    assert HistoryOf([first, merged], machine) == [seeded.(tsLast := Some(merged.time))] by {
      NotedAgain(seeded, merged, machine);
    }
    NotedAfresh([seeded.(tsLast := Some(merged.time))], current, machine);
  }

  lemma NoHistory(machine: string)
    ensures HistoryOf([], machine) == []
  {
  }

  lemma NotedAgain(e: Entry, h: Held, machine: string)
    requires h.bid > 0.0 && machine != "" && SamePrice(e, h.bid, machine)
    ensures Noted([e], Some(h.bid), machine, h.time) == [e.(tsLast := Some(h.time))]
  {
  }

  /** Such a trace, in tenths of a cent. */
  lemma OffGridEchoEscapes()
    ensures var trace := [Held(0.0, 0.0330), Held(60.0, 0.0335), Held(120.0, 0.05)];
            && EchoOfLastHour(0.034, trace)
            && GuardedFloor(Some(0.034), [], false, true, Some(0.05),
                            ForMachine(HistoryOf(trace, "m"), "m"), 120.0) == Some(0.034)
  {
    var a, b, c := Held(0.0, 0.0330), Held(60.0, 0.0335), Held(120.0, 0.05);
    var trace := [a, b, c];
    assert Abs(0.034 - trace[1].bid) <= BID_SELF_FLOOR_EPS;
    assert [a] == [] + [a] && [a, b] == [a] + [b] && trace == [a, b] + [c];
    assert Paced(trace) by {
      PacedSnoc([], a);
      PacedSnoc([a], b);
      PacedSnoc([a, b], c);
      assert LastChange([a, b]) == 60.0;
    }
    MergedRow(a, b, c, "m", 0.034);
  }
}
