# Verified model of the metered relay protocol and its neighbours

Dafny model and proofs for a Swarm light client that uploads chunks through
metered relays and retrieves them from peers.

**Metered lanes.** A client posts bodies of stamped chunks to a relay and pays
with cumulative cheques. The two sides keep separate books and never exchange
totals: the relay reserves the price of a declared body, commits what it
admitted and credits cheques (`Ledger`, `LedgerStore`, `Relay`); the client
counts what it sent, what was answered and what it owes (`Payer`); both derive
every figure from the same parameters (`Meter`). `Relay` is a step system of
concurrent requests, failed disk writes and crashes at any point.
`LaneProtocol` couples one client lane with one relay account: POSTs
interleave, the relay goes on while the client waits, streams, requests and
replies may be lost, payments may arrive after the client gave up on them, and
the relay may restart at any point. It is held together by one quantity, the
*skew*: what the client has paid, owes and will count for booked bodies, less
what the relay was paid, is owed and will book. Every step moves it by an
exactly known amount.
`LaneRuns` derives the run theorems. `Cheques` is the client's store of claims
on one chequebook.

**Beside the lanes.** The search for a feed's latest update (`Feed`), the
inbound rate limiter (`InboundLimit`), mantaray lookup against listing
(`Manifest`), the upload dispatcher (`Upload`), the retrieval loop
(`Retrieval`), the push-frame codec (`PushFrame`) and CID text (`Cid`).

`dafny verify dfyconfig.toml` checks the whole project. `Arith` and `MapSums`
hold shared arithmetic and order-independent sums over finite maps.

## Where the code and what it says of itself differ

- The relay bills neither deduplicated nor rejected frames, and the client gives
  itself back only the deduplicated ones. A body whose outcome is heard in full
  can therefore still put the client ahead, and the payment it makes when due is
  refused (`LaneRuns.RejectedFramesOverpay`). When everything is heard, it is
  refused exactly when the gaps of its answers, which the client can add up from
  their acks, pass the bodies still to be answered
  (`LaneRuns.HeardRunsOverpayByTheirGaps`); `LaneRuns.OverpaysByItsDrift` is the
  condition for any run, and `LaneRuns.HonestRunsNeverOverpay` needs no frame
  rejected.
- A corrected cheque is said to land. In every run it is no overpayment, unless a
  restart forfeits bills after the figure was read, and it is then credited
  exactly when the figure reaches the dust floor beyond payments the client has
  not heard of, such as one that arrived late (`LaneRuns.CorrectionLands`,
  `LaneRuns.RestartUndoesCorrection`).
- A payment reply lost after the relay credited the cheque can jam an honest lane
  for good: the debt is forgiven as phantom when the client next has no room for
  a frame, its cumulative lags, and a later debt both sides agree on is due,
  blocks every dispatch and is refused as stale however often it is presented
  (`LaneRuns.LostReplyCanJam`). `LaneRuns.HonestIdleLaneGoesOn` gives the exact
  condition under which an honest lane goes on.
- "A lane that cannot dispatch can pay" holds exactly under
  `Payer.NeverStuck`. Under the shipped defaults a line of seven KiB-prices
  fails it (`Payer.SevenKibLineSticks`); two frames' worth of line never does.
- A probe that misses an update which exists is described as harmless. A round
  that misses one below another that answers leaves its bounds crossed, and only
  such a round does (`Feed.RoundCrosses`). The next `high - low` then stops a
  build with overflow checks; without them it wraps, no candidate is found, and
  the search ends at the highest update seen. `Feed.ResolveLatest` covers every
  pattern of misses, and `Feed.CrossingRun` is a feed of three updates that crosses.
- The issuance gate keeps every run of lanes within the balance exactly when the
  balance is below the largest 128-bit number (`Cheques.GateProtectsBalance`,
  `Cheques.LargestBalanceOverdraws`).
- The manifest decoder files a fork under a byte it does not compare with the
  fork's prefix. Listing and lookup agree, each path listed once, exactly when
  every fork with an entry below it is filed under its prefix's first byte
  (`Manifest.FiledIffAgreeing`, `Manifest.MisfiledForkIsLost`).
- The retrieval loop's closing error suggests it gives up once all peers have
  failed. A loop that checks its skiplist within a minute of its last failure
  never does (`Retrieval.PromptLoopPersists`); `Retrieval.RefillGivesUp` has
  the exact condition.

## Model

| member | source | states |
|---|---|---|
| `Meter.ValidateDecides` | src/meter.rs:675-698 | startup accepts parameters exactly when price and ratio are positive and dust ≤ settlement < ceiling, and otherwise names the first fault |
| `Meter.CreditLineExact` | src/meter.rs:703-705 | an amount is within the line exactly when it is within the ceiling and its multiple by the ratio is within the batch's remaining value |
| `Meter.PriceMono` | src/meter.rs:709-711 | a partial bill never exceeds the whole body's reservation |
| `Meter.PriceSplit` | src/meter.rs:709-711 | pricing a body in two parts costs at least the whole and at most one KiB more, which bounds every refund discrepancy |
| `Meter.PriceWithin` | src/meter.rs:709-711 | a body is affordable exactly when its bytes fit the whole KiB the amount buys |
| `Meter.EffectiveOrdered` | src/meter.rs:735-747 | on every line some positive amount is payable no later than settlement is due, settlement is due by half the line, and a generous line keeps the configured thresholds |
| `Meter.EffectiveExact` | src/meter.rs:735-747 | the thresholds are the largest within the configured ones and half the line, never below one |
| `Payer.LaneAccount.constructor` | src/payer.rs:328-344 | a lane starts with no debt, no line and its restored cumulative |
| `Payer.LaneAccount.RecordSent` | src/payer.rs:378-382 | new account state, as the value the run theorems are about |
| `Payer.LaneAccount.RecordAnswered` | src/payer.rs:391-397 | an answer moves the body out of flight, into debt unless it was refused at admission |
| `Payer.LaneAccount.RefundDedup` | src/payer.rs:402-406 | deduplicated bytes leave the debt |
| `Payer.LaneAccount.SetCumulativeTo` | src/payer.rs:350-354 | the cumulative only rises |
| `Payer.LaneAccount.SetCap` | src/payer.rs:410-412 | only the line changes |
| `Payer.LaneAccount.ForgivePhantomDebt` | src/payer.rs:443-445 | debt cleared, cumulative kept |
| `Payer.LaneAccount.SyncRelayDebt` | src/payer.rs:461-463 | debt replaced by the relay's figure |
| `Payer.LaneAccount.AdoptRelayDebt` | src/payer.rs:487-502 | the debt becomes the larger of itself and the figure less bytes in flight, reported moved exactly when it changed |
| `Payer.LaneAccount.Settled` | src/payer.rs:505-509 | the cumulative becomes the cheque's, and its rise, up to what is owed, leaves the debt |
| `Payer.FrameEstimateExact` | src/payer.rs:741-755 | the first estimate is the largest 64-bit frame count the budget pays for, for every budget |
| `Payer.WalkNeverSteps` | src/payer.rs:741-755 | multiplied out on 64 bits, wrapping or not, no count up to the estimate looks unaffordable, so the walk-down never steps |
| `Payer.FramesWithin` | src/payer.rs:741-755 | when one frame fits, exactly the 64-bit counts up to the answer are affordable |
| `Payer.AffordableFrames` | src/payer.rs:725-735 | exactly the counts whose body fits the line beside the debt; below the largest line zero exactly without headroom; unlimited without a line |
| `Payer.HeadroomDecides` | src/payer.rs:769-790 | the headroom decides whether debt and body fit; the saturating dispatch gate agrees if and only if the line is below the largest 128-bit number or the sum is representable, and without a line never refuses |
| `Payer.MaxBodyBytesExact` | src/payer.rs:525-529 | a body fits the line exactly when the debt does and the body is at most the answer, which is a 64-bit length and zero when the debt passes the line |
| `Payer.NoDeadEnd` | src/payer.rs:416-437 | an idle lane always has headroom or a payable debt, for every debt, if and only if the frame price and the scaled dust floor leave no gap |
| `Payer.DueIsPayable` | src/payer.rs:416-437 | settlement is never due without a payable cheque, and paying it ends its being due |
| `Payer.DueExactly` | src/payer.rs:416-437 | settlement is due, and a cheque for the whole debt can be written, exactly once the configured amount or half the line is owed |
| `Payer.SmallBatchLine` | src/payer.rs:1343-1353 | the defaults give a batch worth 10^14 a line of 208 KiB |
| `Payer.TwoFramesNeverStick` | src/meter.rs:735-747 | any line of two frames closes that gap, for any parameters |
| `Payer.SevenKibLineSticks` | src/payer.rs:769-778 | the defaults on a seven-KiB line owe three, cannot send and cannot pay |
| `Payer.SettlingRestoresHeadroom` | src/payer.rs:505-509 | paying what is owed on an idle lane makes room for a frame |
| `Ledgers.CreditAccepts` | src/ledger.rs:410-460 | a cheque is accepted exactly when plausible, its chequebook free or already this account's, and above what was accepted but within what is owed; a refusal changes no answer |
| `Ledgers.CreditRefuses` | src/ledger.rs:410-460 | which refusal a cheque meets, exactly when, and with which figures |
| `Ledgers.CreditMovesDelta` | src/ledger.rs:410-460 | acceptance moves the delta from debt to the held cumulative, binds the chequebook and changes no other query |
| `Ledgers.RollbackUndoesCredit` | src/ledger.rs:325-347 | rollback after a credit is the identity on every query |
| `Ledgers.ReserveThenReturn` | src/ledger.rs:378-403 | releasing or committing gives the reservation back, and a bill lands in full, if and only if the sums fit 128 bits |
| `Ledgers.ReserveReports` | src/ledger.rs:378-388 | an admission reports the amount, the saturated sum it came to, the cap and whether it is passed |
| `Ledgers.ReleaseMoves` | src/ledger.rs:391-395 | a release takes what is reserved up to the amount, on any account, and nothing else |
| `Ledgers.Ledger.constructor` | src/ledger.rs:136-147 | the maps it is given |
| `Ledgers.Ledger.Reserve` | src/ledger.rs:378-388 | new maps and admission verdict, as the value the relay theorems are about |
| `Ledgers.Ledger.Release` | src/ledger.rs:391-395 | likewise |
| `Ledgers.Ledger.Commit` | src/ledger.rs:399-403 | likewise |
| `Ledgers.Ledger.Credit` | src/ledger.rs:410-460 | likewise, with the error of each refusal |
| `Ledgers.Ledger.RollbackCredit` | src/ledger.rs:325-347 | likewise |
| `LedgerStore.LoadCheques` | src/ledger.rs:195-213 | the last record of each chequebook is held with its cumulative, whatever the length of its signature, which is kept at 65 bytes and else zeroed; no other is held |
| `LedgerStore.Load` | src/ledger.rs:159-235 | for versions 1 and 2 alike the last record of each account and binding is restored with debt and cheques and no reservation, and no other; each error exactly when its check fails |
| `LedgerStore.RestartRefusesReplay` | src/ledger.rs:195-213 | after loading, no cheque at or below a recorded cumulative is credited, whatever signature the file held |
| `LedgerStore.ChequeRecords` | src/ledger.rs:241-288 | one record per cheque, reading back as the held cheques in any order |
| `LedgerStore.AccountRecords` | src/ledger.rs:241-288 | reads back as the accounts with anything to remember |
| `LedgerStore.BindingRecords` | src/ledger.rs:241-288 | reads back as the binding |
| `LedgerStore.Snapshot` | src/ledger.rs:241-288 | what is written loads back as the ledger's durable half |
| `LedgerStore.DurableKeepsAllButReservations` | src/ledger.rs:12-29 | a restart forgets reservations and nothing else, forgets nothing twice, and an account is on disk exactly when it owes or has paid |
| `Relay.StepKeepsInv` | src/metered.rs:279-298 | every step of the relay, with crashes and failed writes between any two, keeps reservations, debt, cheques, binding and disk consistent |
| `Relay.RunKeepsInv` | src/metered.rs:279-298 | so does every run |
| `Relay.DiskAndMemoryAgree` | src/metered.rs:279-298 | between operations disk and memory hold the same cheques and binding, and an account holds a chequebook's cheque exactly when bound to it |
| `Relay.ChequeWorthItsDeltaOnce` | src/ledger.rs:410-460 | accepted deltas on a chequebook sum to its last cumulative over any crashes, and presenting anything at or below an accepted amount credits nothing |
| `Relay.BillsArePriced` | src/pusher.rs:563-578 | what the relay has billed an account is the sum, over the run's commits of its requests, of the price of their billable bytes |
| `Relay.NothingBilledIsLostSilently` | src/pusher.rs:551-591 | debt, payments and what crashes forfeited are exactly the prices of the billable bytes committed for the account |
| `Relay.ForfeitsOnlyAtCrashes` | src/ledger.rs:12-29 | nothing is forfeited without a crash |
| `Relay.RestartForfeits` | src/ledger.rs:12-29 | at any point of any run a restart takes an account's reservations and exactly the bills since the ledger was last written, and leaves its cheques and binding, which is the restart of the lane model |
| `Relay.CrashFreeConservation` | src/ledger.rs:399-460 | owed plus paid is exactly the price of the billable bytes committed, in every crash-free run |
| `Relay.DurableConservation` | src/pusher.rs:563-578 | if every bill reaches the disk, owed plus paid is exactly the price of the billable bytes committed, through any number of crashes and failed cheque writes |
| `Relay.ReservedIsLive` | src/pusher.rs:551-591 | an account's reservation is the sum of its live requests', so no release clips and none leaks |
| `Relay.AdmitVerdict` | src/pusher.rs:675-686 | hard mode refuses a request exactly when debt, reservations and its price pass the ceiling, or their multiple by the ratio the batch's value; soft mode never |
| `Relay.ExposureBelowCeiling` | src/pusher.rs:675-686 | under hard mode debt and admitted reservations never pass the ceiling, whatever lines requests came under |
| `Relay.ExposureBelowBatchValue` | src/meter.rs:703-705 | nor does their multiple by the credit ratio pass the value of the richest batch presented |
| `Relay.AdmissionFits` | src/pusher.rs:675-686 | under hard mode no admission passes 128 bits while the ceiling and one full body per live request fit |
| `Relay.Metered.constructor` | src/metered.rs:82-95 | disk starts as the ledger's durable half |
| `Relay.Metered.Credit` | src/metered.rs:279-298 | an accepted cheque is on disk on return; a refused one, or one whose write failed, leaves every answer and the disk as before |
| `LaneProtocol.ArriveVerdict` | src/pusher.rs:675-686 | a body is turned away exactly when debt, reservations and its price pass the line |
| `LaneProtocol.AnswerMoves` | src/client.rs:3189-3213 | an answered body moves the skew by its price less the refund of its deduplicated bytes less the bill, so rejected frames raise it |
| `LaneProtocol.BreakMoves` | src/client.rs:3189-3213 | a broken stream changes the skew by exactly what the client counted and the relay did not bill, and not at all while the relay may still book |
| `LaneProtocol.BookBills` | src/pusher.rs:1638-1735 | booking bills all but deduplicated and rejected bytes and releases the reservation |
| `LaneProtocol.BookUnheardMoves` | src/pusher.rs:1638-1735 | for a body no longer waited for the skew moves by what the client counted less that bill |
| `LaneProtocol.DenyMoves` | src/client.rs:3559-3566 | a POST denied before any reservation costs neither side, unless the client had already counted it |
| `LaneProtocol.PayArriveMoves` | src/pusher.rs:859-909 | presenting a cheque leaves paid plus owed unchanged on the relay |
| `LaneProtocol.PayVerdict` | src/pusher.rs:859-909 | which reply a cheque gets, exactly when, from debt, last cumulative and floor |
| `LaneProtocol.LateArriveMoves` | src/pusher.rs:859-909 | so does a cheque the client had given up on, at any later time |
| `LaneProtocol.RestartMoves` | src/ledger.rs:12-29 | a restart raises the skew by exactly the debt not yet on disk and the bodies it stops reading that the client already counted |
| `LaneProtocol.StepLaw` | src/payer.rs:378-509 | every step of client or relay, denials, restarts and late payments among them, keeps the coupling invariant and moves the skew by its drift |
| `LaneProtocol.RunSkew` | src/payer.rs:378-509 | the skew at the end of any run is the skew at its start and the sum of the drifts of its steps |
| `LaneProtocol.RunKeepsInv` | src/payer.rs:378-509 | so does every run, with any losses |
| `LaneRuns.HonestRunsNeverOverpay` | src/payer.rs:432-437 | while every body is refused or booked with no frame rejected and its outcome heard, no cheque is ever an overpayment, and it is credited exactly when debt less unacknowledged payments reaches the floor |
| `LaneRuns.OverpaysByItsDrift` | src/ledger.rs:434-449 | in any run, a cheque overpays exactly when it is otherwise acceptable and the drifts of the run's steps outweigh what the client was behind at the start and has yet to count |
| `LaneRuns.HeardRunsOverpayByTheirGaps` | src/client.rs:3189-3213 | when everything is heard, the client is ahead by exactly the gaps of its answers less what it forgave, and a plausible cheque is an overpayment exactly when those pass the unanswered bodies and something is owed |
| `LaneRuns.RejectedFramesOverpay` | src/pusher.rs:1638-1735 | a run in which everything is heard and one rejected frame makes the due payment an overpayment |
| `LaneRuns.BooksAgree` | src/payer.rs:378-437 | with all bodies billed whole and no reply lost, client debt plus booked-unanswered bodies is the relay's debt, and the cumulatives are equal |
| `LaneRuns.ChequesAccepted` | src/payer.rs:920-1026 | every plausible cheque the client computes is credited for exactly its debt |
| `LaneRuns.NeverOverCap` | src/client.rs:3031-3077 | nothing is refused, pending is the price of the bodies in flight, and relay outstanding ≤ client outstanding ≤ line |
| `LaneRuns.IdleLaneGoesOn` | src/client.rs:2922-2940 | a clean idle lane has headroom, or its next payment is accepted and makes headroom |
| `LaneRuns.HonestIdleLaneGoesOn` | src/client.rs:2922-2940 | an honest idle lane goes on if and only if it has headroom, the relay is owed nothing, or its debt reaches the floor beyond payments it has not heard of |
| `LaneRuns.CorrectionLands` | src/payer.rs:985-998 | after one corrected figure the cheque presented again is an overpayment only if a restart forfeited bills since, in any run with any losses and any relay debt up to the ceiling |
| `LaneRuns.CorrectsOnce` | src/payer.rs:985-998 | no run asks for the relay's figure more often than it began to settle, and a corrected cheque refused again ends the attempt |
| `LaneRuns.RestartUndoesCorrection` | src/payer.rs:985-998 | a run in which forfeiting the one bill that missed the disk makes the corrected cheque overpay |
| `LaneRuns.AdoptionNeverDoubleCounts` | src/payer.rs:487-502 | adopting a figure read earlier, even above the line, only raises the debt; debt and flight then reach the figure, and if it rose stay within the relay's debt and what lowered it since; a figure past ceiling or balance changes nothing |
| `LaneRuns.ReconciliationFindsDebt` | src/payer.rs:837-845 | in any run an undisturbed reconciliation leaves the client counting all the relay's debt, if the chequebook covers it |
| `LaneRuns.RestartForgetsUnsaved` | src/ledger.rs:12-29 | in any run a restart forgets exactly the bills since the relay last wrote its ledger |
| `LaneRuns.LostChequesArriveOnce` | src/payer.rs:920-1026 | no run has more late payments than lost exchanges |
| `LaneRuns.LostReplyCanJam` | src/payer.rs:981-984 | an honest run, paying only when due or out of room, ends owing a debt both sides agree on, with no room for a frame, whose cheque is stale every time |
| `LaneRuns.PayAndArriveLate` | src/payer.rs:920-1026 | a payment given up on is credited when it arrives, leaving the two sides as a lost reply does |
| `Feed.ConfirmAnchor` | src/feed.rs:512-541 | an anchor is returned exactly when the first definitive answer within four attempts is that it is present |
| `Feed.AnchorTruth` | src/feed.rs:512-541 | against probes that never deny and finally answer for what exists, that is exactly when the update exists |
| `Feed.BracketCandidates` | src/feed.rs:171-186 | min(k, interior) ascending indices strictly inside, no gap wider than an even share |
| `Feed.ProbeAll` | src/feed.rs:334-366 | whichever order probes finish in, the bracket ends at the highest hit and lowest miss, with the highest hit's chunk |
| `Feed.RoundCrosses` | src/feed.rs:343-361 | a round leaves its bounds crossed if and only if it missed an index below one that answered |
| `Feed.Gallop` | src/feed.rs:328-371 | for any misses, ends at an answered index with a missed one or at the probe limit, and crosses whenever the second index answers and the first does not |
| `Feed.NarrowRound` | src/feed.rs:374-414 | for any misses, unless its bounds cross, takes a gap g to at most (g-1)/13+1, always narrower |
| `Feed.Narrow` | src/feed.rs:374-414 | narrowing ends with neighbouring bounds, answered and missed, or crossed ones |
| `Feed.ResolveLatest` | src/feed.rs:284-427 | for every feed, hint, completion order and pattern of missed updates, fails exactly without an anchor, and else ends at an existing update with its own chunk, the next index missed or past the limit unless the bounds crossed over a miss; with a steady anchor and nothing missed, at the head |
| `Feed.CrossingRun` | src/feed.rs:374-377 | three updates, the second missed, cross the bounds |
| `InboundLimit.InboundLimiter.constructor` | src/inbound_limit.rs:58-65 | an empty map with the clamped limits |
| `InboundLimit.InboundLimiter.Sweep` | src/inbound_limit.rs:102-108 | keeps exactly the buckets not full now |
| `InboundLimit.InboundLimiter.AllowAt` | src/inbound_limit.rs:71-99 | verdict and new map, as the value the history theorems are about |
| `InboundLimit.RunMatches` | src/inbound_limit.rs:71-108 | after any history a tracked key's bucket is the ideal one of an unbounded map, and an untracked key's ideal bucket is full |
| `InboundLimit.MapStaysBounded` | src/inbound_limit.rs:71-99 | the map never passes its cap |
| `InboundLimit.EvictionMintsNothing` | src/inbound_limit.rs:102-108 | a request is admitted only if the ideal bucket had a token, and for tracked keys exactly then |
| `InboundLimit.WindowBound` | src/inbound_limit.rs:45-55 | in any window of any history one key is admitted at most burst + rate × length times |
| `InboundLimit.LevelIsAllowance` | src/inbound_limit.rs:45-55 | after any history some window, the one since the bucket was last full, leaves its key exactly what the ideal bucket holds, so that none leaves less |
| `InboundLimit.AdmittedExactly` | src/inbound_limit.rs:71-99 | a request of any key is admitted if and only if it keeps every window of its key within bounds and, for an untracked key, the map is not full of keys yet to refill |
| `InboundLimit.StrangerAdmitted` | src/inbound_limit.rs:71-99 | a first request is admitted while fewer keys than the cap were seen |
| `Manifest.IndexDocumentFound` | src/manifest.rs:244-262 | a node has an index document exactly when some fork names a non-empty one: the `/` fork's, else the first in key order |
| `Manifest.Lookup` | src/client.rs:1780-1840 | the loop ends, with one redirect at most, where the recursive walk does |
| `Manifest.Walk` | src/client.rs:1862-1893 | accumulates the listing |
| `Manifest.FoundIsListed` | src/client.rs:1862-1893 | whatever the walk finds is listed, on any decoded manifest |
| `Manifest.ListingIsWalk` | src/client.rs:1862-1893 | on a filed manifest an entry is listed exactly when walking its path reaches it |
| `Manifest.SeekComposes` | src/client.rs:1780-1840 | on any node, walking on from where a path leads is walking the joined path, with the same error or content type |
| `Manifest.FiledIffAgreeing` | src/manifest.rs:130-192 | on any decoded manifest, each path is listed once and listing and walk agree if and only if every fork with an entry below it is filed under its prefix's first byte |
| `Manifest.LookupAgreesWithListing` | src/client.rs:1780-1893 | on a filed manifest, lookup finds a reference exactly when it is listed at the path, or at the path joined with the index document of an entryless node |
| `Manifest.LookupTypeIsLast` | src/client.rs:1834-1836 | the content type returned is that of the last fork to carry one on the way to the entry |
| `Manifest.WalkFailsAt` | src/client.rs:1824-1833 | a failed walk reached some node where no fork is filed under the next byte, or the one that is does not match what is left |
| `Manifest.ListedOnce` | src/client.rs:1862-1893 | on a filed manifest no path is listed twice |
| `Manifest.MisfiledForkIsLost` | src/manifest.rs:130-192 | a decoded manifest outside that condition, listing an entry lookup cannot find |
| `Cheques.ChequeStore.constructor` | src/cheques.rs:79-85 | no payee |
| `Cheques.ChequeStore.TotalIssued` | src/cheques.rs:211-216 | the saturated sum over payees, in any visiting order |
| `Cheques.ChequeStore.WouldExceedBalance` | src/cheques.rs:224-227 | for a raise below the largest balance, whether the total after it passes the balance |
| `Cheques.GateIsExact` | src/cheques.rs:224-227 | for every raise, the gate answers whether the new total exceeds the balance, if and only if the balance is below the largest 128-bit number or the total is representable |
| `Cheques.GateRefusesOnlyExcess` | src/cheques.rs:224-227 | whatever it is asked, it refuses nothing that fits |
| `Cheques.ChequeStore.SetCumulative` | src/cheques.rs:233-241 | a payee's total is set, or the call refused exactly when it would fall |
| `Cheques.ChequeStore.BumpAndGet` | src/cheques.rs:143-153 | a payee's total rises by the delta, or the call is refused exactly on overflow |
| `Cheques.ChequeStore.RecordCheque` | src/payer.rs:1010-1025 | records exactly the raises that pass the gate, which below the largest balance are exactly those the chequebook covers |
| `Cheques.ClaimsStayCovered` | src/payer.rs:1010-1025 | over any interleaving of lanes through the gate and bee peers past it, no payee's total falls, and below the largest balance claims outgrow it by at most the bumps |
| `Cheques.GateProtectsBalance` | src/payer.rs:1010-1025 | every gated run from every covered store stays within the balance if and only if it is below the largest 128-bit number |
| `Cheques.LargestBalanceOverdraws` | src/cheques.rs:224-227 | the largest balance, wholly promised, promised again |
| `Cheques.RelaySharesOneTotal` | src/cheques.rs:200-202 | two lanes share a total exactly when they share a beneficiary, and never with a bee peer |
| `Cheques.CaseDoesNotMatter` | src/cheques.rs:127-132 | a key and its upper-case spelling are one key |
| `Cheques.HexReadsBack` | src/cheques.rs:200-202 | the two digits of each byte read back as that byte |
| `Upload.LastAttemptSettlesFirst` | src/client.rs:5494-5593 | the attempt that decides a chunk is the first not retried |
| `Upload.FateIsFirstDecision` | src/client.rs:5469-5593 | a receipt stores a chunk and a missing batch loses it at once; other outcomes are retried, and the sixtieth stands, shallow accepted and failure fatal |
| `Upload.CompleteKeepsTrack` | src/client.rs:5454-5593 | each completion leaves every chunk handed out in flight or reported, not both, and bound for its own fate |
| `Upload.RunDispatches` | src/client.rs:5326-5593 | the loop ends with nothing in flight or at the first chunk lost, and its peak in flight is the buffer or the chunks there are |
| `Upload.PushChunks` | src/client.rs:4559-5706 | in every completion order each chunk meets the fate its own outcomes decide, is reported once and dispatched at most 60 times; success exactly when no chunk is lost, with all of them pushed; the peak in flight is exactly the buffer's or the total |
| `Retrieval.CandidatesArePartitioned` | src/client.rs:790-1057 | through any deferrals, failures and refills each candidate is in exactly one of queue, flight and skiplist; at most `concurrency` in flight, and exactly that many while any waits |
| `Retrieval.WaitingPeerStarts` | src/client.rs:1024-1057 | the peer at place i of the queue is in flight after i + 1 completions, whatever they are |
| `Retrieval.RefillGivesUp` | src/client.rs:960-996 | the loop gives up exactly without candidates or when every park was over when it looked; otherwise it starts a fetch |
| `Retrieval.PromptLoopPersists` | src/client.rs:955-1057 | a loop that looks within the skip time of its last failure never gives up while it has a candidate |
| `Retrieval.FailedPeerRests` | src/client.rs:955-1057 | a peer that failed is neither queued nor in flight again until a minute has passed, over any run |
| `PushFrame.EncodeFrame` | src/pushframe.rs:47-54 | appends the frame and nothing else |
| `PushFrame.FrameLayout` | src/pushframe.rs:47-54 | where address, stamp, little-endian length and chunk lie |
| `PushFrame.EncodeBatch` | src/pushframe.rs:57-63 | the frames in order |
| `PushFrame.DecodeBatch` | src/pushframe.rs:68-95 | the loop computes the recursive parse, with the same error and offset |
| `PushFrame.DecodeStops` | src/pushframe.rs:68-95 | a refused body starts with whole frames, and the error names what follows them and where |
| `PushFrame.DecodeEncode` | src/pushframe.rs:57-95 | decoding an encoded batch gives it back, or the frame-cap error exactly when over the cap |
| `PushFrame.EncodeDecode` | src/pushframe.rs:68-95 | whatever decodes re-encodes to the same bytes |
| `PushFrame.BodiesAreCanonical` | src/pushframe.rs:57-95 | a body decodes to a batch if and only if it is that batch's encoding and within the cap |
| `PushFrame.CutsOnlyBetweenFrames` | src/pushframe.rs:68-95 | a prefix of a body that is itself a body is cut between frames |
| `Cid.EncodeBase32Lower` | src/cid.rs:53-70 | the symbols spell the input's bits padded with under five zeros, for every input, though the 32-bit buffer drops bits |
| `Cid.SpellingIsInjective` | src/cid.rs:53-70 | a text spells one byte string at most |
| `Cid.SpellingIsUnique` | src/cid.rs:53-70 | a byte string has one spelling |
| `Cid.PushVarint` | src/cid.rs:42-48 | appends the LEB128 form |
| `Cid.CidHeaderBytes` | src/cid.rs:26-37 | the header is 01 fa 01 1b 20 |
| `Cid.VarintRoundTrip` | src/cid.rs:42-48 | varints read back as written, leaving what follows |
| `Cid.ReferenceToCid` | src/cid.rs:26-37 | the text is the reference's CID |
| `Cid.CidIdentifiesReference` | src/cid.rs:26-37 | two CIDs are equal if and only if the references are |

## Left out

- Several lanes on one relay account: the coupled theorems take one lane per account, since the account figure sums over lanes and adopting it would count debt twice.
- A credit line that changes during a coupled run: the line is fixed from the start, though the debt it starts with may lie above it.
- Soft mode inside the coupled lane runs, and the relay's shedding of load.
- Chain checks, signatures, challenges, quotes, HTTP, JSON, hex and decimal spellings: cheques carry an opaque signature, and spelling a number and reading it are identified.
- The payment handler between its checks and the credit: it is one step of the coupled model, while the relay model splits credit, write and rollback.
- 128-bit overflow of a price product: prices are unbounded naturals, and sums saturate at 128 bits where the code saturates.
- StepKeepsInv: an admission whose account would pass 128 bits is not a step of the relay model, so saturation never hides a clip; `AdmissionFits` says how many requests at once that takes under hard mode.
- StepLaw: takes a ceiling small enough that four of it and the largest plausible cumulative fit 128 bits, far above any quoted one.
- FramesWithin: where a body length passes 64 bits it wraps, as in a build without overflow checks.
- AffordableFrames: `max_frames` is the same search over the whole line and has no member of its own.
- ResolveLatest: interior probes may miss any update but never invent one, and an index is missed or not once and for all, as each is probed once.
- InboundLimiter: reals instead of floating point, and a clock that does not run backwards in the histories.
- Lookup: works on decoded tries whose forks carry their nodes; fetching and parsing of nodes, the byte-level decoder and the lossy text form of listed paths are not part of this model.
- SetCumulative, BumpAndGet: keys are lower-cased in the ASCII range only; the store's file is not part of this model.
- Snapshot: the order of records in the file, which the code sorts, is any order here.
- PushChunks: one dispatch of a chunk through the peer pool is an outcome of its chunk and attempt number; peer racing, session pre-warming, backoff times and receipts of dispatches still running when the upload aborts are not modelled.
- CandidatesArePartitioned: candidates have distinct overlays, and the pause after a full cycle of deferrals is left out because it moves no peer.
- The upload scheduler, erasure code, stamping, peer ranking, caches, metering reports and logging: they would add plumbing or single-branch facts.
