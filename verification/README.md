# Fleet supervision: model and proofs

This project models the parts of the fleet tooling (`tools/vast`) that spend
money, hand out credentials, delete data or rebuild files, and proves what their
comments promise over all inputs and all runs.

| file | what it models |
|---|---|
| `Money.dfy` | prices as exact reals, Python's `round(x, 3)` and the $0.001 grid |
| `BidRails.dfy` | the five price rails of `bid_decision` |
| `Rebid.dfy` | the defence ceiling, the shared re-bid ceiling, the notification-priced rescue, the re-bid ladder |
| `Replacement.dfy` | the re-derived replacement ceiling, spot break-even, the rung choice |
| `SelfFloor.dfy` | the market floor that is our own bid read back, the recorded bid series and the row guard |
| `LossLadder.dfy` | whole runs of loss handling: announcing, waiting, relaunching |
| `BidLadder.dfy` | defend, decay and rescue moves, `poll`, and whole runs of both supervise lanes |
| `HandoffCore.dfy` | the migration machine's decision per tick |
| `HandoffDriver.dfy` | both lanes' drivers around it, the two boxes, and every run of them |
| `HandoffSignals.dfy` | the run lane's flush and proof-of-life signals |
| `RateLimit.dfy`, `CredBroker.dfy` | the mint throttle, the request policy, both transports and the replay log |
| `CkptPaths.dfy`, `CkptRetention.dfy` | which objects may be deleted, which checkpoints survive, and the deletes |
| `EchoProbe.dfy` | the probe that moves a live bid and puts it back |
| `CdnChunks.dfy` | the chunk split and the concurrent reassembly |

Code that updates state in place is a class or a loop here and is proved equal to a
specification function (`RateLimiter`, `CredreqLog`, `Broker`, `LaneContext`, `JobWatch`,
`Bucket`, `EchoProbe`, `LocalFile`, the retention and matcher loops); pure decisions
are functions. Environment choices (market reads, API answers, clocks, signals,
thread order) are arbitrary inputs.

## Where the code does less than it says

Each of these is kept as the code has it, with a lemma that exhibits it and a lemma
that states when the promise does hold.

- `bid_decision`'s raise-to-floor branch is alive exactly where the preference and the
  cushion both round to below a floor that fits (`BidDecisionAtAnyFloor`), which takes a
  floor of at most $0.0041 (`RaiseNeedsATinyFloor`, `RaiseToFloorReachable`); there a
  lower floor can also lose its price to a higher one (`TinyFloorLosesItsPrice`).
- `rebid_ladder` rounds after clamping, so a rung passes its ceiling exactly when the
  ceiling binds and rounds up (`RungIsBounded`, `OffGridCapIsExceeded`), and undercuts
  the floor exactly when it binds and rounds below it (`RungClearsFloorExactly`). It
  never reaches on-demand (`RungBelowOnDemand`).
- A bid moved by no more than the echo radius merges into the entry before it. The last
  hour's prices are all on record exactly when that never happens (`MemoryExactly`), and
  the echo of a merged price is then taken for a competitor (`MergedEchoEscapesExactly`,
  `OffGridEchoEscapes`).
- The handoff drivers can put two writers to work: a refused park, an unpinned
  primary after a fast cutover, and an unwind that gives the primary back before it
  reaps the understudy (`RefusedParkOverlaps`, `FastCutoverOverlaps`,
  `DrainDeadlineOverlaps`). `Hazard` lists these ticks by the boxes and the answers,
  `OneWriterOverRuns` says that no others ever lead there and `HazardExactly`,
  `OneWriterExactly` that each of them does.
- The jobs lane never stamps `drain_ts`, so its drain deadline cannot fire
  (`JobsDrainNeverExpires`), and `retarget_incomplete` is never cleared by a later
  successful cutover (`StuckTicketNeverDrains`).
- A handoff destroys the primary on remembered proof of life, whether or not the
  understudy still lives (`PrimaryIsSpentBlindly`, `DeadUnderstudyStillSpends`).
- A final flush left in the log from an earlier life makes the understudy look alive
  at once (`StaleFlushDrainsAtOnce`, `ProofOfLifeExactly`).
- A denied request can be forgotten and mint later exactly when it was dated further
  ahead than the freshness window (`DeniedMintsLaterExactly`,
  `RememberedDenialNeverMints`, `FutureDatedDenialMayMint`).
- The sole-copy guard of `classify_job` asks whether a keep knob was given, not whether it
  keeps: `keep_last = -1` passes it and keeps nothing (`NegativePolicySweepsEverything`).
- A completion marker inside a directory that is itself named like a step keys to the
  outer step (`MarkerTravelsWithItsCheckpoint`), and empties a root exactly when all
  that root's steps are debris (`RootEmptiedExactly`, `NestedMarkerEmptiesARoot`,
  `NestedShapeExists`).
- `restore()` does not mark the bid uncertain before its own PUTs: after a failed one the
  probe may be sure of a price the server no longer holds. The last clause of
  `RestoreBid` says exactly when. `Probe`'s success report is right all the same.
- The probe's preflight bounds no percentage and lets negative bids through, exactly when
  `NegativePlanExactly` says (`NegativeBidPassesPreflight`).
- `fetch_one` checks a length only after writing, so an overlong response overwrites a
  finished neighbour and the pull still reports success (`OverlongIsHarmlessExactly`).
- `plan_chunks` with a chunk size of zero or less does not tile a non-empty file
  (`ManifestTilesExactly`).

## Model

| member | source | states |
|---|---|---|
| BidRails.EmittedBidIsSafe | tools/vast/bidpolicy.py:551-702 | for any floor at all, an emitted price is at or above the floor, at most the cap and the ceiling, strictly below a known on-demand price and at least the cushion held under the cap; the last on-demand backstop never fires |
| BidRails.CeilingBelowOnDemand | tools/vast/bidpolicy.py:516-548 | the effective ceiling of a known on-demand price is strictly below it, whatever the cap |
| BidRails.ApplyRailsExact | tools/vast/bidpolicy.py:633-702 | over any prices the ordered rails refuse iff the cushion breaches the ceiling, or the composed price falls short of the floor and the floor rounded up does not fit; the price and the raise-to-floor branch are given in closed form |
| BidRails.BidDecisionAtAnyFloor | tools/vast/bidpolicy.py:551-702 | at any floor whatever: when there is no price, which price there is, and that the floor itself is bid iff preference and cushion both round to below it and it fits under ceiling and cap; the on-demand backstop is dead |
| BidRails.BidDecisionExact | tools/vast/bidpolicy.py:551-702 | for floors of at least $0.005: no price iff the rounded 1.1x cushion passes the ceiling or the floor passes the cap, otherwise exactly the composed price; the raise-to-floor branch is dead |
| BidRails.BidInFigures | tools/vast/bidpolicy.py:551-702 | from $0.005 up, under a known on-demand price: the bid is a fifth over the floor, under 65% of on-demand and under the ceiling, lifted to a tenth over the floor and held under the cap, never more than a fifth over the floor; none iff a tenth over the floor passes the ceiling or the floor the cap |
| BidRails.BidWithoutOnDemand | tools/vast/bidpolicy.py:551-702 | with no on-demand price: a fifth over the floor, under the cap alone |
| BidRails.CeilingInFigures | tools/vast/bidpolicy.py:516-548 | three quarters of a known on-demand price, never within $0.001 of it; else the cap |
| BidRails.RaiseNeedsATinyFloor | tools/vast/bidpolicy.py:676-691 | the raise-to-floor branch is live only where 1.1 times the floor is at most $0.0045 |
| BidRails.RaiseToFloorReachable | tools/vast/bidpolicy.py:676-691 | below that range the raise-to-floor branch does emit a price |
| BidRails.MonotoneInFloor | tools/vast/bidpolicy.py:551-702 | wherever both floors get a price the higher floor's is no lower; below a priced floor one is priced iff the composed price clears it or it fits itself, which from $0.005 up is always |
| BidRails.TinyFloorLosesItsPrice | tools/vast/bidpolicy.py:676-691 | under $0.005 a lower floor can lose its price where a higher one keeps it |
| BidRails.MonotoneInMaxBid | tools/vast/bidpolicy.py:551-702 | at any floor a looser cap never lowers the price and never loses one |
| BidRails.MonotoneInOnDemand | tools/vast/bidpolicy.py:551-702 | at any floor a dearer on-demand price never lowers the bid and never loses one |
| Rebid.DefenseIsBreakEven | tools/vast/bidpolicy.py:2691-2752 | up to half a grid step, the ceiling admits a bid iff holding for the rest of the job costs no more than renting the alternative with its overhead |
| Rebid.DefenseShape | tools/vast/bidpolicy.py:2658-2752 | the ceiling is antitone in the remaining hours, and cheap work is never defended above dear work |
| Rebid.DefenseInFigures | tools/vast/bidpolicy.py:2641-2752 | the ceiling is the break-even with setup and lost work as overhead: nothing lost for cheap work, half a checkpoint interval or else the run so far for dear work, checkpointed work dear unless said |
| Rebid.RebidCeilingBinds | tools/vast/bidpolicy.py:2222-2267 | every line that exists binds, one of them is met, and there is no ceiling iff neither an anchor nor a cap nor a caller's bound exists |
| Rebid.RescueQuoteIsBounded | tools/vast/bidpolicy.py:2277-2353 | a notification-priced rescue is held to the re-bid ceiling, below on-demand, a cent over the displacing price and inside the budget |
| Rebid.QuoteExactly | tools/vast/bidpolicy.py:2277-2353 | a notification is quoted iff its price, a cent up, beats the market's floor, a ceiling exists, a bid fits under it, and the budget bears it a quarter of an hour; it is quoted at that bid |
| Rebid.RungIsBounded | tools/vast/bidpolicy.py:2459-2557 | a rung rises by at least a cent, within its rung limit and budget, to at most the ceiling rounded to the grid; it passes the ceiling itself iff the ceiling is what stops it and rounds up |
| Rebid.RungExactly | tools/vast/bidpolicy.py:2459-2557 | when a rung is offered, iff, and at which price: the step or the floor's target, whichever is more, under the ceiling, on the grid |
| Rebid.RungBelowOnDemand | tools/vast/bidpolicy.py:2459-2557 | whatever the ceiling, on the grid or off it, a rung is strictly below a known on-demand price |
| Rebid.RungClearsFloorExactly | tools/vast/bidpolicy.py:2459-2557 | a rung falls short of the floor read iff the ceiling is what stops it and rounds to below that floor |
| Rebid.RungOnGridCeiling | tools/vast/bidpolicy.py:2459-2557 | so on a grid ceiling a rung is at or above the floor read, at most the ceiling and strictly below on-demand |
| Rebid.OffGridCapIsExceeded | tools/vast/bidpolicy.py:2505-2508 | with an off-grid cap a rung can pass it |
| Rebid.CycleIsBounded | tools/vast/bidpolicy.py:2356-2557 | over an eviction cycle of any length the rungs number at most the limit and each rises by at least a cent |
| Rebid.InformedCycleIsOneShot | tools/vast/bidpolicy.py:2407-2557 | a cycle that can read a replacement price throughout raises at most once |
| Rebid.AlternativeNeverRaisesTheRung | tools/vast/bidpolicy.py:2407-2557 | where an anchor or a cap exists, at any floor, knowing the replacement price never raises the rung's price, and only the budget can refuse the blind ladder a rung the informed one takes |
| Replacement.CeilingStaysInItsBand | tools/vast/bidpolicy.py:1774-1862 | the ceiling lies between its base and the larger of the base and four times the anchor; an escalated one also obeys on-demand, the budget and the live evidence |
| Replacement.EscalationIsExact | tools/vast/bidpolicy.py:1774-1862 | the ceiling leaves its base iff the nearest live read above it, cushioned, and every line lie above it, and then stands on the lowest of them |
| Replacement.CeilingInFigures | tools/vast/bidpolicy.py:1820-1862 | the ceiling in figures of the anchor, the nearest read above twice it, on-demand and the budget over the horizon |
| Replacement.BreakevenIsThreshold | tools/vast/bidpolicy.py:2560-2607 | spot wins iff the price ratio is under the useful fraction of a box's life |
| Replacement.BreakevenMonotone | tools/vast/bidpolicy.py:2560-2607 | a longer life never turns a winning spot box into a losing one |
| Replacement.InvertedSpotImpliesOnDemand | tools/vast/bidpolicy.py:1984-2057 | a viable spot bid at or over on-demand makes the on-demand rung viable |
| Replacement.ReplacementIsComplete | tools/vast/bidpolicy.py:1865-2167 | past the gates a box is rented iff some rung is viable, the market chosen is determined, and every rental is at most the ceiling and leaves a quarter of an hour of budget |
| Replacement.GateExactly | tools/vast/bidpolicy.py:1984-2006 | the four gates in their order, with their figures |
| Replacement.RungChoiceExactly | tools/vast/bidpolicy.py:1994-2167 | which box is rented at which price, iff: on-demand where it fits and spot is displaced, died young twice, is inverted, squeezed, losing or does not fit; else spot where it fits |
| Replacement.RentedBidObeysTheRails | tools/vast/bidpolicy.py:1984-2167 | a rented bid clears its floor, the ceiling and its own machine's on-demand price |
| Replacement.JobWatch.Observe | tools/vast/vastlib/supervise/job_lane.py:1060-1109 | spend accrues on a live priced box, and the launch anchor is written by the first priced observation and by no other |
| Replacement.JobWatch.Replace | tools/vast/vastlib/supervise/replacement.py:3325-3680 | one eviction: the ceiling re-derived from the anchor, the rung chosen, and only the replacement count moved by a swap |
| Replacement.RentalsNeverCompound | tools/vast/vastlib/supervise/replacement.py:2602-2660 | over any run of observations, evictions and swaps the anchor is the first price ever observed, at most three boxes are rented, and each is decided at a price of at most the larger of twice and four times that price |
| Replacement.SpendIsBilled | tools/vast/vastlib/supervise/job_lane.py:1060-1066 | over any run the spend held against the budget is the bill of every hour observed live at a known rate |
| Replacement.RentalsAreRead | tools/vast/bidpolicy.py:1984-2167 | over any run every rental is priced at an on-demand price that was read, or is a bid at or above a floor that was read and under its machine's on-demand price |
| SelfFloor.MarketFloorSelfMatch | tools/vast/bidpolicy.py:1169-1256 | the loop meets its declarative description: the standing bid wins, else some in-window entry explains the read and the reported age is the least |
| SelfFloor.MatchIgnoresOrderAndExpiry | tools/vast/bidpolicy.py:1169-1256 | verdict and age are unchanged by permuting, repeating or trimming expired entries |
| SelfFloor.SelfFloorGuard | tools/vast/ladder_core.py:311-430 | the row guard drops exactly the rows that are our own bid and prices off the least of the rest |
| SelfFloor.CompetitorIsNeverHidden | tools/vast/ladder_core.py:311-430 | of an unscaled listing the guard passes the market through when no row is ours, else the cheapest row that is not, and none iff every row is ours |
| SelfFloor.OursExactly | tools/vast/bidpolicy.py:1169-1256 | a row is ours iff it is within half a tenth of a cent of the standing bid or of a price that stood within the hour |
| SelfFloor.GuardIsForTenants | tools/vast/ladder_core.py:311-430 | who holds no box sees the market as it is; who does takes a scaled listing for no read |
| SelfFloor.LaneContext.NoteStandingBid | tools/vast/ladder_core.py:98-147 | the recorded series is refreshed, or grown and trimmed, as the specification says |
| SelfFloor.MemoryExactly | tools/vast/ladder_core.py:98-147 | with bids a rate limit apart and a clock that never steps back, every price of the last hour is on record at every tick iff no bid ever moves by at most the echo radius |
| SelfFloor.HistoryRemembersTheHour | tools/vast/ladder_core.py:98-147 | then the capped series is also in time order and rate-spaced, and ends with the standing bid since its last change |
| SelfFloor.HourFitsTheCap | tools/vast/ladder_core.py:98-147 | an hour of rate-limited entries fits the 72-entry cap, so the cap never evicts one that counts |
| SelfFloor.CapForgetsExactly | tools/vast/ladder_core.py:98-147 | moved at any rate, the series is a tail of the full record, and of the stretches that ended within the hour it has lost exactly those with 72 or more after them |
| SelfFloor.LaneContext.BoxSwapReset | tools/vast/ladder_core.py:184-218 | a swap empties the series |
| SelfFloor.SwapStartsAfresh | tools/vast/ladder_core.py:184-218 | after a swap the series is that of the notes since, so all that is said of a trace holds from the swap on |
| SelfFloor.EchoOnlyListingIsNoMarket | tools/vast/ladder_core.py:311-430 | while we are the tenant and bids are so separated, a listing made only of prices we held in the last hour is no market |
| SelfFloor.MergedEchoEscapesExactly | tools/vast/ladder_core.py:98-147 | after two prices merged and the bid moved on, some echo of the second one passes for a competitor iff the two differ by more than the matcher's slop |
| SelfFloor.OffGridEchoEscapes | tools/vast/ladder_core.py:98-147 | such a trace exists off the grid |
| BidLadder.RecentRaiseHold | tools/vast/bidpolicy.py:778-824 | the loops compute the hold of the machine's positive prices in time order |
| BidLadder.SeenPricesAreTheRecord | tools/vast/bidpolicy.py:793-812 | the prices compared are exactly those recorded for the machine, as many times each, in time order |
| BidLadder.HoldIsOfTheRecord | tools/vast/bidpolicy.py:778-824 | of any time-ordered arrangement of the recorded prices the hold is the dearest one that a raise within the last 300 s first paid, absent iff there was no such raise |
| BidLadder.LiveBoxMovesExactly | tools/vast/bidpolicy.py:863-895 | a live box is raised to the target iff the floor has come up to nine tenths of its bid, or the fraction given, and the target is a cent above it; else lowered iff the dwell is served, the target is over a cent below and no recent raise paid more; else left alone |
| BidLadder.LostBoxMovesExactly | tools/vast/bidpolicy.py:827-862 | a lost box is rescued iff still listed, not yet rescued, past the rate limit, and the quote, or without one the target, beats its bid |
| BidLadder.DefendedOnTheTick | tools/vast/bidpolicy.py:2939-3002 | after any run, an unhindered live box is raised on the very tick its floor reaches the line, and not otherwise; what lands is the bid from then on |
| BidLadder.TickRecordsExactly | tools/vast/vastlib/supervise/run_lane.py:531-573 | a PUT starts the rate limit whether it lands or not, moves the bid only if it does, and a decay restarts the dwell |
| BidLadder.PollInOrder | tools/vast/bidpolicy.py:2939-3002 | the six rows in their order |
| BidLadder.OperatorIntentExactly | tools/vast/bidpolicy.py:422-444 | a stop is an operator's iff asked for by one, or made with the bid not under the floor; never while a fence is open |
| BidLadder.MovesAreSafe | tools/vast/bidpolicy.py:827-895 | no raise, decay or rescue passes the cap, the ceiling or on-demand; raises raise and decays lower by more than a cent; only a lost box is rescued |
| BidLadder.DecayKeepsRecentRaise | tools/vast/bidpolicy.py:883-890 | a decay never goes below a price some raise first paid in the last 300 s |
| LossLadder.RelaunchIsTheLastResort | tools/vast/vastlib/supervise/run_lane.py:509-590 | over any run a relaunch comes only after two ticks not live, an earlier announcement with no box taken since, no winning legal bid, no stop, no spent cap, and relaunches under their cap, which they never exceed |
| LossLadder.LossRunsItsCourse | tools/vast/vastlib/supervise/run_lane.py:509-590 | a lasting, unwinnable loss is announced on its second tick, waits out its back-off however long, and relaunches on the first tick after |
| BidLadder.ConstantMarketSettles | tools/vast/bidpolicy.py:827-895 | on a live box and a constant market at most one move ever lands, and none once the bid stands at the target |
| BidLadder.EchoRatchetIsBounded | tools/vast/bidpolicy.py:827-895 | if every floor read were our own last bid, unguarded, raises would climb by at least a cent each and number at most the headroom in cents |
| BidLadder.SelfEchoNeverMoves | tools/vast/bidpolicy.py:863-882 | a live box whose listing echoes only prices of the last hour makes no bid move |
| BidLadder.DecayIsEarned | tools/vast/bidpolicy.py:718-775 | a decay means every poll over at least the last 90 s was a decay candidate |
| BidLadder.DecayRunExactly | tools/vast/bidpolicy.py:718-758 | a tick extends the decay run iff the box is live and its bid stands over a cent above the target; the run keeps its count and its first tick's time |
| BidLadder.CountAndDurationAgree | tools/vast/bidpolicy.py:761-775 | at a uniform 45 s tick the legacy poll count and the timestamp dwell fire on the same poll |
| BidLadder.PolicyNeverArmsHandoff | tools/vast/bidpolicy.py:2840-2936 | along any run of policy bids with on-demand read at every tick and never falling, the handoff trigger stays off |
| BidLadder.HandoffTriggerExactly | tools/vast/bidpolicy.py:2840-2936 | a handoff is asked for iff a live box's bid stands over a cent above three quarters of on-demand and above the target |
| HandoffCore.ArmIsSound | tools/vast/bidpolicy.py:3098-3225 | arming implies a strictly cheaper target, more than half an hour left, a stay that costs strictly more than moving with the window and the work at risk, budget for the window, and no unresumable work unless overridden |
| HandoffDriver.IdleArmsExactly | tools/vast/bidpolicy.py:3098-3369 | at rest the machine arms iff moving pays, fits the budget, has been asked for long enough and nothing forbids it |
| HandoffDriver.ArmedMovesExactly | tools/vast/vastlib/supervise/handoff.py:672-738 | an armed attempt ends on a lost primary or after half an hour, and otherwise goes as its launch goes, lane by lane |
| HandoffDriver.BootingMovesExactly | tools/vast/bidpolicy.py:3374-3377 | a booting attempt is synced iff the understudy is seen live and synced, unless lost or late |
| HandoffDriver.SyncedMovesExactly | tools/vast/bidpolicy.py:3228-3261 | a synced attempt cuts over to a lost primary, ends late, waits for work that cannot be fenced, else fences |
| HandoffDriver.CutoverMovesExactly | tools/vast/bidpolicy.py:3335-3389 | a cutover is unwound after half an hour, else promoted on the flush or after a quarter of an hour unless a ticket is stuck |
| HandoffDriver.DrainingMovesExactly | tools/vast/bidpolicy.py:3317-3414 | a drain ends when the primary is gone behind a proven understudy, or when an unproven one looks down or is late |
| HandoffDriver.EndsCoolDown | tools/vast/vastlib/supervise/handoff.py:564-651 | however an attempt ends, the next is half an hour away and starts from a clean record |
| HandoffDriver.BoxesMoveExactly | tools/vast/vastlib/supervise/handoff.py:653-842 | what each action does to the two boxes, lane by lane, in the requests' answers |
| HandoffDriver.SyncedOnACheckpoint | tools/vast/vastlib/supervise/handoff.py:457-492 | over any run of either lane an attempt is synced, or a fence open, only if an earlier tick of that attempt saw the booting understudy live with the checkpoint pulled; and such a tick does sync it, unless the primary is lost or the attempt late |
| HandoffDriver.TickKeepsFenceExactly | tools/vast/vastlib/supervise/handoff.py:653-842 | in either lane a tick keeps the fence, and one writer also between giving the primary back and reaping, iff it is none of the hazards, each told from the boxes and the answers alone |
| HandoffDriver.OneWriterOverRuns | tools/vast/vastlib/supervise/handoff.py:653-842 | over every run, market events included, without a hazardous tick there are never two writers |
| HandoffDriver.HazardExactly | tools/vast/vastlib/supervise/handoff.py:653-842 | an event is a hazard iff it shows two writers in its middle or leaves two writers at most three hazard-free events away |
| HandoffDriver.OneWriterExactly | tools/vast/vastlib/supervise/handoff.py:653-842 | a run is free of hazards iff none of its events brings two writers about or leaves them that close |
| HandoffDriver.UnfencingExact | tools/vast/vastlib/supervise/handoff.py:886-945 | an unwind keeps one writer iff the understudy holds no claim, or the jobs lane takes its tickets back, or it is reaped and was not on beside a claiming primary that is on or is brought back |
| HandoffDriver.SmoothMigrationCompletes | tools/vast/vastlib/supervise/handoff.py:748-829 | in either lane four ticks with every request answered take a synced migration to its end, one tracked box left and never two writers |
| HandoffDriver.DrainDeadlineOverlaps | tools/vast/vastlib/supervise/handoff.py:830-841 | an unwind at the drain deadline over a live understudy puts both boxes to work, every request answered |
| HandoffDriver.RefusedParkOverlaps | tools/vast/vastlib/supervise/handoff.py:748-778 | a refused park ends with two writers at the flush timeout |
| HandoffDriver.FastCutoverOverlaps | tools/vast/vastlib/supervise/handoff.py:780-812 | the run lane's fast cutover leaves a listed primary unpinned, and it can come back beside the understudy |
| HandoffDriver.TickIsTimely | tools/vast/bidpolicy.py:3287-3344 | whatever the environment answers, a tick leaves the machine inside the deadline of the phase it leaves it in, held fences included |
| HandoffDriver.AttemptsEnd | tools/vast/bidpolicy.py:3287-3344 | in the run lane an attempt whose understudy never produces is over within its three deadlines and one tick |
| HandoffDriver.UnwindFollowsAStuckCutover | tools/vast/bidpolicy.py:3335-3344 | over any run with ticks at most 900 s apart a fence is unwound only after an earlier tick of that fence offered the cutover and found a ticket it could not delete; in the run lane never |
| HandoffDriver.PrimaryIsSpentOnProof | tools/vast/bidpolicy.py:3228-3414 | over any run the primary is destroyed, and the handoff completed, only behind a fence opened over resumable, unfinished, freshly checkpointed work or over a lost primary, only after the understudy was seen producing behind that fence, and only in an attempt that had seen it live with the checkpoint pulled |
| HandoffDriver.PrimaryIsSpentBlindly | tools/vast/vastlib/supervise/handoff.py:814-822 | the tick that destroys the primary leaves a box on iff, of the understudy's stops and returns since, the last was a return, or it was on and neither happened; listed truthfully, iff it is listed live |
| HandoffDriver.DeadUnderstudyStillSpends | tools/vast/bidpolicy.py:3390-3412 | an understudy listed dead, its proof on record, still costs the primary, and no box is left on |
| HandoffDriver.JobsDrainExitsExactly | tools/vast/vastlib/supervise/handoff.py:1458-1632 | a jobs-lane drain ends iff the understudy is seen dead, or has produced with no stuck ticket and the primary gone |
| HandoffDriver.JobsDrainNeverExpires | tools/vast/vastlib/supervise/handoff.py:1458-1553 | an understudy that stays up and silent holds the jobs-lane drain open for any number of ticks |
| HandoffDriver.StuckTicketNeverDrains | tools/vast/vastlib/supervise/handoff.py:1273-1304 | after one undeletable ticket, over any number of ticks, the drain goes on exactly as long as the understudy is not seen down, and neither box is touched |
| HandoffSignals.RunSignals | tools/vast/vastlib/supervise/handoff.py:420-454 | the loops compute the flush signal and the producing signal as their descriptions say |
| HandoffSignals.ProofOfLifeExactly | tools/vast/vastlib/supervise/handoff.py:420-454 | the producing signal proves the understudy checkpointed iff the log held no flush followed by a checkpoint before the fence |
| HandoffSignals.StaleFlushDrainsAtOnce | tools/vast/vastlib/supervise/handoff.py:420-492 | with such a log the primary is destroyed on the second tick after the fence |
| RateLimit.RateLimiter.TryAcquire | tools/vast/credbroker.py:105-128 | the in-place prune and append are the specification's, on refused calls too |
| RateLimit.AcquireKeeps | tools/vast/credbroker.py:112-128 | one call at any clock reading keeps the stamps a faithful memory of the grants and the grants spread |
| RateLimit.GrantsAreSpread | tools/vast/credbroker.py:105-128 | over any calls and any clock, backward and forward jumps included, grants to an instance rise by at least 60 s and any 25 of them span a day |
| RateLimit.PruningIsInvisible | tools/vast/credbroker.py:112-128 | with a clock that never steps back every verdict is the one the complete record of grants would give, pruning on refused calls included |
| RateLimit.VerdictExactly | tools/vast/credbroker.py:112-128 | refused within a minute of a grant of the last day, then at twenty-four in the last day, else granted |
| CredBroker.CredreqLog.Prune | tools/vast/credbrokerd.py:161-166 | drops exactly the entries recorded before the cutoff and keeps the issued high-water marks |
| CredBroker.Broker.SweepOne | tools/vast/credbrokerd.py:323-413 | the checks in their order, what each outcome records and what it leaves unrecorded |
| CredBroker.Broker.HandleCreds | tools/vast/credbrokerd.py:197-254 | the HTTP lane's status and its only state change, the shared throttle |
| CredBroker.HttpExactly | tools/vast/credbrokerd.py:197-254 | 200 iff the box is live, its nonce is the launch's or hashes to the registered one, its role is the one on record, its prefix may be had, the throttle has room and the mint succeeds; 429 and 403 otherwise, as said |
| CredBroker.SweepMintsExactly | tools/vast/credbrokerd.py:323-413 | the bucket lane mints iff all of that holds of the request's proof, and it is new, named as its path, within ten minutes and after the last mint |
| CredBroker.SweepRecordsExactly | tools/vast/credbrokerd.py:323-413 | every answered request is on record but one the throttle turned back |
| CredBroker.PolicyExactly | tools/vast/credbroker.py:214-230 | what each role may ask for, and what it is given |
| CredBroker.MintsStrictlyIncrease | tools/vast/credbrokerd.py:348-413 | over any run with restarts and HTTP requests the timestamps that mint for an instance strictly increase, so no request mints twice, whatever the clock |
| CredBroker.IssuesAreThrottled | tools/vast/credbrokerd.py:197-413 | over any run keys leave either transport only at a grant of the one throttle, whose grants are spread, and only to a live box under its recorded role, with the right proof and a prefix inside that role's |
| CredBroker.RememberedDenialNeverMints | tools/vast/credbrokerd.py:323-413 | with a clock that never steps back, a request that was denied for anything but the throttle and dated no further ahead than the window never mints |
| CredBroker.DeniedMintsLaterExactly | tools/vast/credbrokerd.py:348-413 | after any run that denies it, an otherwise acceptable request can mint later iff it was dated further ahead than the window |
| CredBroker.FutureDatedDenialMayMint | tools/vast/credbrokerd.py:348-363 | such a run from empty state |
| CkptPaths.SweepableIsIntermediate | tools/vast/ckpt_retention.py:165-194 | a path that passes has the segments `jobs`, a job id, `checkpoints` and an object below, and none that climbs out |
| CkptPaths.SweepableExactly | tools/vast/ckpt_retention.py:165-194 | and exactly these pass, whatever separators lead them |
| CkptPaths.SplitJoins | tools/vast/ckpt_retention.py:165-194 | splitting a path loses nothing and leaves no separator in a segment |
| CkptPaths.ValueOfDecimal | tools/vast/ckpt_retention.py:197-218 | a step's number is the one its name spells |
| CkptPaths.MarkerTravelsWithItsCheckpoint | tools/vast/ckpt_retention.py:197-250 | a checkpoint's objects and its sibling marker have one key iff no directory above them is named like a step |
| CkptRetention.IncompleteCheckpointKeys | tools/vast/ckpt_retention.py:259-298 | the loop finds exactly the unmarked, incomplete steps of roots where some sibling is marked or complete |
| CkptRetention.NamesCompleteExactly | tools/vast/ckpt_retention.py:253-256 | a checkpoint is whole iff it has the trainer's state, an optimizer, a scheduler and some weights, under their names or left out by name |
| CkptRetention.StepsToKeep | tools/vast/ckpt_retention.py:307-323 | a step is kept iff its rank is among the first, among the last, or on the stride |
| CkptRetention.KeptExactly | tools/vast/ckpt_retention.py:307-323 | a step survives iff fewer than `first` are older, fewer than `last` newer, or the older ones number a multiple of the stride |
| CkptRetention.KeysToKeep | tools/vast/ckpt_retention.py:326-342 | the same per layout root |
| CkptRetention.PolicyKeepsExactly | tools/vast/ckpt_retention.py:307-323 | a non-empty series keeps a step iff some knob is positive |
| CkptRetention.RootEmptiedExactly | tools/vast/ckpt_retention.py:259-342 | for any listing and positive policy, a layout root with a step is emptied iff it holds a marker and all its steps are unmarked debris |
| CkptRetention.NoRootIsEmptied | tools/vast/ckpt_retention.py:259-342 | so where no marker lies inside a step directory no root is ever emptied |
| CkptRetention.NegativePolicySweepsEverything | tools/vast/ckpt_retention.py:415-423 | with no positive knob nothing is kept, and a negative one passes the sole-copy guard |
| CkptRetention.NestedMarkerEmptiesARoot | tools/vast/ckpt_retention.py:228-298 | the smallest such listing: a marker nested under a step beside one file of a torn step |
| CkptRetention.NestedShapeExists | tools/vast/ckpt_retention.py:197-250 | that shape does occur |
| CkptRetention.TornDebrisIsInvisible | tools/vast/ckpt_retention.py:259-342 | more objects of a torn step under an already judged root leave the kept set as it was, if that step is listed by its own files or not at all |
| CkptRetention.Bucket.DeleteObjects | tools/vast/ckpt_retention.py:670-691 | one unsafe path refuses the call and leaves the bucket unchanged; otherwise exactly the reported objects go, each call is accounted for, and no object outside the sweepable paths is touched |
| CkptRetention.Bucket.SweepPlan | tools/vast/ckpt_retention.py:694-778 | a plan with a path it does not understand deletes nothing; otherwise every object that goes was listed, under a checkpoint not kept, by a published job done or cancelled, or failed with failed jobs asked for, aged past the window; and of every such job each object not kept, its delete accepted, goes |
| CkptRetention.SweepNeedsEvidence | tools/vast/ckpt_retention.py:345-459 | a job is swept iff that evidence holds and something is not kept |
| CkptRetention.KeptObjectsSurvive | tools/vast/ckpt_retention.py:345-459 | no plan over jobs with their own objects removes one whose checkpoint is kept, however its path is spelled |
| EchoProbe.EchoesAreToldApart | tools/vast/bid_echo_probe.py:207-223 | between two distinct grid prices every grid floor is classified as what it is |
| EchoProbe.ClassifiedExactly | tools/vast/bid_echo_probe.py:207-223 | any floor: new within half a tenth of a cent of the new price, else old, else neither |
| EchoProbe.BuildPlan | tools/vast/bid_echo_probe.py:226-247 | the plan is chained phase to phase, and an unknown phase gives none |
| EchoProbe.PhaseGoesByPercent | tools/vast/bid_echo_probe.py:226-247 | where each phase goes |
| EchoProbe.PreflightExactly | tools/vast/bid_echo_probe.py:250-285 | everything the preflight asks, and no more |
| EchoProbe.PlanIsMeasurable | tools/vast/bid_echo_probe.py:226-285 | whatever the percentage, an accepted plan moves between distinct grid prices under the cap, in the direction named iff price and percentage have one sign, always up to 100; lowering from above the original restores it |
| EchoProbe.PhaseIsNegativeExactly | tools/vast/bid_echo_probe.py:226-247 | whatever the percentage, a phase is planned at a negative price iff what it computes from its starting bid lies below minus half a grid step, for a lowering phase only where that bid is at most the original |
| EchoProbe.NegativePlanExactly | tools/vast/bid_echo_probe.py:226-285 | for any percentage, an accepted plan has a negative price iff its first way down passes nothing by over half a grid step: lowering first or twice in a row, or under a negative percentage the first raise |
| EchoProbe.NegativeBidPassesPreflight | tools/vast/bid_echo_probe.py:226-285 | such a plan is accepted |
| EchoProbe.FlippedExactly | tools/vast/bid_echo_probe.py:496-518 | a flip is confirmed iff some window to the last read holds that many new reads and no old one; the one reported starts at the first new read and holds exactly `confirm` |
| EchoProbe.StableExactly | tools/vast/bid_echo_probe.py:442-473 | the baseline is stable iff the last `confirm` readable floors all echoed our bid |
| EchoProbe.EchoProbe.MoveBid | tools/vast/bid_echo_probe.py:387-408 | a price over the cap is refused without a PUT, otherwise exactly one PUT of the rounded target goes out unless a signal strikes; PUTs stay a minute apart, and wherever a signal strikes the probe is uncertain or right about the bid |
| EchoProbe.EchoProbe.RestoreBid | tools/vast/bid_echo_probe.py:410-439 | success means the server holds the original price or was never moved; it gives up only after three refused PUTs or a signal; after a failure belief and fact differ iff an unacknowledged attempt took effect behind a bid it was sure of |
| EchoProbe.EchoProbe.Baseline | tools/vast/bid_echo_probe.py:442-473 | stable at the first poll that shows it, otherwise only after the full wait, in a bounded number of polls |
| EchoProbe.EchoProbe.AwaitFlip | tools/vast/bid_echo_probe.py:495-521 | a flip is reported at the first poll that confirms it with the first read's lag, censoring only after the full wait, in a bounded number of polls |
| EchoProbe.EchoProbe.RunPhase | tools/vast/bid_echo_probe.py:475-521 | on the floors the market served: no echo iff no baseline read was our bid, a flip iff the reads after the move confirm it, and flipped or censored only of an acknowledged move whose price still stands |
| EchoProbe.EchoProbe.RunPlan | tools/vast/bid_echo_probe.py:535-542 | phase after phase until one that measured nothing, the last measured target standing |
| EchoProbe.Probe | tools/vast/bid_echo_probe.py:621-680 | the probe goes ahead iff the plan exists and the preflight accepts it, and PUTs nothing otherwise; no PUT exceeds the cap or the pace, and "restored" means the original price stands or no PUT ever took effect |
| CdnChunks.ManifestTilesExactly | tools/vast/cdn_mirror.py:127-131 | the parts tile the file without gap or overlap iff the chunk size is positive or the file empty |
| CdnChunks.ChunksAreFull | tools/vast/cdn_mirror.py:127-131 | no part exceeds the chunk size and only the last may fall short |
| CdnChunks.PullIsExact | tools/vast/cdn_pull.py:41-145 | for every order of opens, buffers and retries over all parts, a pull that ends without error holds exactly the source, if accepted reads are right and excess bytes repeat the source |
| CdnChunks.OverlongIsHarmlessExactly | tools/vast/cdn_pull.py:46-60 | after an overlong response and a good retry the pull reports success and the file is the source iff the excess repeated what follows |
| CdnChunks.LocalFile.FetchOne | tools/vast/cdn_pull.py:41-84 | attempts go on to the first good one or the limit, the file is what those attempts wrote, and bytes are reported iff a try was good |
| CdnChunks.WorkerIsTheFetch | tools/vast/cdn_pull.py:41-84 | the sequential fetch is what one worker of the concurrent machine does: done on the first good try, failed iff all are bad, no other worker touched |
| CdnChunks.FetchStaysInItsPart | tools/vast/cdn_pull.py:41-62 | if no try ran long, only the part's own range changes and it ends as the verified bytes |
| CdnChunks.BuffersAreOneWrite | tools/vast/cdn_pull.py:50-58 | writing buffer by buffer in the concurrent machine is the one write of the sequential fetch |

## Supporting lemmas

What one decision says by itself, each used by the run-level result named.

- `HandoffCore.PollTiming`, `HandoffCore.IrreversibleStepsAreGuarded` (tools/vast/bidpolicy.py:3228-3414), for `PrimaryIsSpentOnProof`.
- `HandoffDriver.UnwindFollowsAnOfferedCutover` (tools/vast/bidpolicy.py:3335-3344), for `UnwindFollowsAStuckCutover`.
- `BidLadder.SpendingIsGuarded`, `BidLadder.LossIsAnswered` (tools/vast/bidpolicy.py:2939-3002), for `RelaunchIsTheLastResort` and `LossRunsItsCourse`.
- `Rebid.ReadableAlternativeIsOneShot` (tools/vast/bidpolicy.py:2407-2418), for `InformedCycleIsOneShot`.
- `Replacement.UnknownOnDemandIsInert` (tools/vast/bidpolicy.py:2001-2110), for `RentalsAreRead`.
- `HandoffCore.IdleAnswers` and its siblings (tools/vast/bidpolicy.py:3271-3414), for the phase results of `HandoffDriver`.

## Left out

- Binary floating point: prices are exact reals, so the 1e-9 slacks become exact comparisons; NaN, infinities and malformed types are not modelled.
- `bid_decision`'s multiplier arguments: no production caller passes them, so they are constants here.
- `classify_eviction`, `resume_in_place`, `host_stop_escalation`, `retention_plan`, `_default_max_bid`, `_refresh_default_ceiling` and `floor_rise_corroborated`: their answers enter as inputs.
- `SelfFloorGuard`: its alarm latches, journal rows and episode counters.
- `poll`'s reason strings and alarms; the run's terminal status and the CLI actor are inputs.
- Handoff: the epoch and claim objects written to the bucket, the restart reconciliation, reaping on exit, the jobs lane's own signal reading and the stall alarm.
- Loss handling: the length of the back-off and the steps inside a relaunch, which enter as inputs; the jobs lane, whose replacement rungs are `JobWatch`.
- Handoff: `AttemptsEnd` is stated for the run lane only; the jobs lane has no drain stamp, and `JobsDrainNeverExpires` says so.
- Cryptography: HMAC and SHA are arbitrary functions, and the sealed envelope is not modelled.
- Broker: corrupt state files, malformed requests and failed reads, which change no state; audit rows; key revocation.
- `MintsStrictlyIncrease`: speaks of the bucket lane, the HTTP lane having no request timestamps.
- Retention: the bucket listing and the readers of status, publication and pruning; dry runs; and `sweep` on a plan `classify_job` did not judge, which refuses one delete call at a time.
- Retention: a delete that fails after taking effect; digits are ASCII; a layout root is its list of segments, so `checkpoints//checkpoint-5` and `checkpoints/checkpoint-5` have roots that stay apart here and join to one string there.
- `RentalsNeverCompound`: bounds the price each rental is decided at; the realised hourly rate can exceed it when the market moves before the launch lands.
- `JobWatch`: the operator's per-watch overrides of the multipliers and of the replacement cap, and the pull-reschedule lane, which shares the ceiling.
- Probe: the journal's rounding of times and lags, the box re-read at each poll, and PUT spacing after a PUT that raised.
- Probe: a floor offered as several rows; only the classified value matters here.
- `Preflight`'s list of complaints is the conjunction of their negations.
- CDN: HTTP, back-off and thread pools; skipping of already mirrored chunks by size, and manifests whose hashes are not the source's.
- `PullIsExact`: takes as given that an accepted read is right, which a missing hash or a collision would break.
- Host benchmarks, fleet reports, lookup tables and the command line.
