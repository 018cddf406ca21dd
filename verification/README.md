# Verified model of the treasury-cosigned rent payment

`relstate` lets tenants pay rent with a confidential token transfer whose fees and proof-account rent the
platform's treasury pays. The backend co-signs transactions that strangers build, keeps everything it needs to
do so safely in memory, and serves many requests at once, each split by network round trips. This project
models that backend (and the browser's session cache beside it) in Dafny and proves what its in-memory state
guarantees over every run.

Most components appear twice: as a state machine over values, about which the theorems are stated, and as
classes with the fields, lists and maps the program changes in place, whose methods are proved to take exactly
those steps. The modules named `…Answers` say of every run what each operation answers, exactly, in terms of what was
asked and done before, so that the state machines themselves are held to something outside them.

| files | subject |
|---|---|
| `RentPlan`, `RentPlanUndo`, `RentPlanRuns`, `RentPlanAnswers`, `RentPlanReversals`, `RentPlanCap`, `RentPlanRegistry` | which wallet owns which proof context, with undo closures that run late, twice or out of order |
| `Limits`, `LimitLists`, `RateLimiter` | the two-phase spend limiter: the full history, and the pruned lists that answer for it |
| `Transactions`, `RentShape`, `ContextLedger`, `ContextDebits`, `ContextRuns`, `ContextUses`, `RentLosses` | the shape filter, and what accepted transactions can cost when they are executed |
| `Cosigning`, `Treasury`, `TreasuryRuns`, `TreasuryAnswers`, `TreasuryReplay`, `ReplayLifetime`, `ReplayGaps`, `TreasuryDesk`, `TreasuryLoss` | the cosigning protocol that composes limiter, replay map and registry |
| `RentDust`, `RentDustTwice` | the one-time grant of account rent |
| `RentPay`, `RentAudit` | where `pay_rent` is placed in a plan, and how the auditor pairs it |
| `Tables`, `WalletAuth`, `WalletAuthRuns`, `WalletAuthAnswers`, `WalletAuthStore` | login challenges |
| `Windows`, `RpcLimiter`, `RpcLimiterRuns`, `RpcLimiterAnswers`, `RpcAdmission` | the work-weighted RPC limiter |
| `Session`, `SessionCache` | the browser's session cache |
| `Invites`, `InviteAnswers`, `InviteStore` | appraiser invitations |
| `AppraiserName` | the canonical form of a company name |
| `Layout`, `LayoutSizes`, `AccountLayouts`, `AccountData`, `LeaseRecord`, `DisputeRecord`, `DisputeRewrite`, `DisputeLayout` | IDL layouts and account decoding |
| `SponsorAta` | the one place where a sponsored transaction may name its fee payer |
| `Basics`, `Sums` | shared vocabulary |

Addresses, nonces, message hashes and similar names are numbers, of which only equality matters except where an
address is read out of bytes. Times are milliseconds as the program reads them, passed to each operation.

## Where the code and its documentation differ

- docs/contracts/treasury.md, line 78, says that at most 2000 plans are live at once. An undo that puts a
  finished plan back does not look at the cap: `RentPlanCap.CapExceededExactly` says when it goes past,
  `RentPlanCap.CapCanBeExceeded` gives a run, and `RentPlanCap.LivePlansBounded` is the bound that holds.
- docs/contracts/pay.md, line 68, says without a limit that the same signed message is not co-signed twice. The
  hash is forgotten after five minutes, and then the same message is let in again, with nothing having failed
  (`ReplayGaps.ExpiryLetsReplayIn`). Inside the five minutes, a request that fails more than that long after it
  began deletes the hash another request has registered since: `TreasuryReplay.ForgottenExactly` says exactly
  when an event loses a hash, `ReplayGaps.LateFailureLetsReplayIn` is a run in which one message is cosigned
  twice two milliseconds apart, and `TreasuryReplay.NoMessageCosignedTwice` is the guarantee for runs without
  such a failure, in particular (`TimelyRunsAreClean`) when failures arrive within the window. Both gaps need the
  cluster to take a message more than five minutes after it was first presented. backend/src/treasury.ts, lines
  608 and 674-675, relies on a blockhash not living that long; if it does not, then in every run, late failures
  included, no message is ever cosigned and kept twice (`ReplayLifetime.NoMessageKeptTwice`).
- backend/src/treasury.ts, lines 761-766, says that rent dust is granted once per wallet. That is so for the
  grants the program knows of (`RentDust.GrantedOnce`). A transfer that is reported as failed and lands all the
  same releases the wallet. It is then paid again exactly when its balance is below the amount at its next call
  and the limiter has room (`RentDust.GrantedExactly`), so only if it has spent the first payment, or if that
  landed after the balance was read (`RentDustTwice.PaidTwiceMeans`); `RentDustTwice.PaidTwice` is such a run.
- backend/src/treasury.ts, lines 549-553, says that the booking covers the debit when the balance moves one way
  between the readings, which holds (`Cosigning.OneWayIsCovered`), and calls it a best estimate otherwise.
  `Cosigning.CosignBooks` says exactly when it covers the debit.
- backend/src/rentshape.ts, lines 49-52, takes the lamport caps to bound how many range contexts can be lost in a
  day. What is booked is the fall of the treasury's balance, and a transaction may close contexts besides creating
  the range context. The booking covers that context's rent exactly when the closes bring in no more than the other
  creates cost (`RentLosses.BookingCoversExactly`); `RentLosses.RentUnbooked` is a transaction for which they bring
  in more. The caps bound what is lost in a day, balance and contexts together, up to what is hidden in this way,
  and without addition when each landing meets the condition (`TreasuryLoss.DailyTotalFall`). A booking is also of
  what was simulated: the landing takes out no more exactly when its closes bring in no less
  (`ContextDebits.DebitNoLargerExactly`), and `RentLosses.RefundCanShrink` is a transaction for which they bring in
  less.
- backend/src/txinspect.ts, lines 327-330, says that the rent of the appraiser's token account is not booked
  against the caps; backend/src/sponsor.ts, line 114, books it. Neither is part of this model.

## Model

| member | source | states |
|---|---|---|
| RentPlanRuns.RunInv | backend/src/rentplan.ts:54-131 | every registry reachable by any interleaving of admissions and undos keeps the invariant: disjoint plans, a plan that can be put back is detached and empty with one handle that can do it, exact preparation counts, provenance |
| RentPlanRuns.NoContextShared | backend/src/rentplan.ts:75-131 | in no reachable registry does a context belong to two wallets' plans |
| RentPlanRuns.PreparationsExact | backend/src/rentplan.ts:90-110 | a plan's count is the number of its preparing admissions not taken back, at most six; the guard in undo always passes; no live plan is empty |
| RentPlanAnswers.AdmittedExactly | backend/src/rentplan.ts:75-95 | in every reachable registry a transaction is admitted exactly when its wallet signs it or it uses a context, no context it creates is in a plan at most five minutes old, every other one it touches is in its wallet's such plan, a preparing one finds fewer than six of those admitted into that plan not taken back, and a first create fewer than 2000 such plans; each refusal is exactly the first of these that fails |
| RentPlanAnswers.AdmittedUpdates | backend/src/rentplan.ts:97-113 | after an admission the wallet's plan has the contexts it had and those created, less those closed, one more preparation if it was a preparing call, and the age it had; it is gone exactly when the wallet signed and nothing is left in it; every other wallet's plan, and after a refusal every wallet's, stays as it was |
| RentPlanRuns.ContextsHaveProvenance | backend/src/rentplan.ts:82-105 | every context registered to a wallet, or touched by its admitted transaction, was created by that transaction or an earlier admitted one of the same wallet |
| RentPlanRuns.SweptPlansStayGone | backend/src/rentplan.ts:63-65 | no undo in any later run puts back a plan the sweep removed |
| RentPlanRuns.AdmitThenUndo | backend/src/rentplan.ts:97-130 | an admission undone at once leaves the swept registry with every live plan, and every earlier plan and closure, as it was; a refused one leaves just the swept registry |
| RentPlanRuns.NestedUndosRestore | backend/src/rentplan.ts:97-130 | admissions of any wallets, nested and undone in reverse order before anything expires, restore the registry |
| RentPlanRuns.UndoIsOnceAndLocal | backend/src/rentplan.ts:112-130 | a second undo does nothing, and no undo changes another wallet's plan |
| RentPlanReversals.UndoneExactly | backend/src/rentplan.ts:114-131 | the undo of any admitted call, run for the first time after any other calls and undos, finds its plan exactly when the wallet has that plan, or has none and that call took it out; it then takes out what the call added, puts back what it spent and no other wallet took since, counts a preparing call out, and leaves the plan, as old as ever, exactly when there is something in it |
| RentPlan.AdmitInv | backend/src/rentplan.ts:75-111 | an admission, accepted or refused, keeps the invariant |
| RentPlanUndo.UndoInv | backend/src/rentplan.ts:113-130 | an undo keeps the invariant whenever it runs |
| RentPlanUndo.UndoGuardPasses | backend/src/rentplan.ts:128 | an undo of a preparing call that finds its plan always has a preparation to take back |
| RentPlan.NewPlanCreates | backend/src/rentplan.ts:81-99 | a wallet without a plan gets one only by creating a context |
| RentPlanCap.LivePlansBounded | backend/src/rentplan.ts:93-95 | in every reachable registry, the live plans that no undo put back after their removal are within the cap |
| RentPlanCap.CapExceededExactly | backend/src/rentplan.ts:113-130 | a step goes past the cap exactly when it is the undo of a finished plan of a wallet without one, with something to put back, in a full registry |
| RentPlanCap.CapCanBeExceeded | backend/src/rentplan.ts:52-130 | there is a run that leads to 2001 live plans |
| RentPlanRegistry.Registry.constructor | backend/src/rentplan.ts:54-57 | the empty registry |
| RentPlanRegistry.Registry.OwnerOf | backend/src/rentplan.ts:59-62 | finds a wallet whose plan holds the context, or there is none |
| RentPlanRegistry.Registry.Sweep | backend/src/rentplan.ts:63-65 | removes exactly the plans past their lifetime |
| RentPlanRegistry.Registry.CheckContexts | backend/src/rentplan.ts:83-89 | the two loops of checks refuse exactly owned creations and foreign contexts, in that order |
| RentPlanRegistry.Registry.Check | backend/src/rentplan.ts:77-95 | the checks of admit, in its order; `RentPlanAnswers.AdmittedExactly` says what they come to |
| RentPlanRegistry.Registry.Admit | backend/src/rentplan.ts:75-113 | admit on plan objects takes the step of the state machine and returns the closure for it; `RentPlanAnswers` says when it succeeds and what it leaves |
| RentPlanRegistry.Registry.Apply | backend/src/rentplan.ts:97-113 | the part of admit after its checks, changing the plan in place |
| RentPlanRegistry.Registry.AddAndSpend | backend/src/rentplan.ts:101-105 | adds what was created and not closed, deletes what was closed and held, and reports both |
| RentPlanRegistry.Registry.Undo | backend/src/rentplan.ts:113-130 | the closure takes the step of the state machine, however often it is run |
| Limits.CapsHoldAlways | backend/src/limits.ts:81-123 | with a clock that does not run backwards and commits no larger than reservations, bookings of any day and counts of any hour stay within the wallet's and the global caps, at every instant of every run |
| Limits.RefusesExactly | backend/src/limits.ts:81-94 | a reservation is refused exactly when it would break a cap, and the scope named is one whose cap would break |
| Limits.RefusedBecause | backend/src/limits.ts:81-94 | the scope named is that of the first cap without room, in the order wallet's hour, everyone's hour, wallet's day, everyone's day |
| Limits.OverCommitBreaksCap | backend/src/limits.ts:106-110 | without the bound on commits the daily cap does not hold |
| Limits.GlobalIsTotal | backend/src/limits.ts:96-121 | global usage in a window, the count and the lamports, is the total of all wallets' usage in it |
| LimitLists.PrunedAgain | backend/src/limits.ts:54-75 | pruning a list leaves exactly the entries of the last day, and the folds over it equal count and sum over the whole history |
| RateLimiter.Prune | backend/src/limits.ts:54-60 | drops from the front exactly what is more than a day old, up to the first that is not |
| RateLimiter.FoldsAreById | backend/src/limits.ts:61-64 | the folds over shared entries are those over the history at their numbers |
| RateLimiter.RemoveFrom | backend/src/limits.ts:113-116 | finding and splicing an entry out leaves every other one, in order |
| RateLimiter.Limiter.constructor | backend/src/limits.ts:50-52 | the empty limiter |
| RateLimiter.Limiter.Snapshot | backend/src/limits.ts:66-75 | usage from the pruned lists is usage over every reservation ever made and not cancelled |
| RateLimiter.Limiter.Reserve | backend/src/limits.ts:81-105 | answers as the ideal limiter with the full history, and books the worst case on both lists |
| RateLimiter.Limiter.Commit | backend/src/limits.ts:106-110 | rewrites an open entry to the actual cost, once |
| RateLimiter.Limiter.Cancel | backend/src/limits.ts:111-122 | takes an open entry off both lists, once |
| RentShape.AssertRentPaymentShape | backend/src/rentshape.ts:113-225 | accepts exactly the allowed transactions, and otherwise names the first instruction that is not, with the one code that stands for what is wrong with it |
| RentShape.CheckCreate | backend/src/rentshape.ts:124-156 | accepts exactly treasury-funded proof contexts within the caps that are verified in the same transaction or are exactly the range context; each code is returned exactly for what it stands for, the first thing wrong |
| RentShape.CheckProof | backend/src/rentshape.ts:158-181 | accepts exactly verifies under the treasury's authority and closes back to the treasury; otherwise says which of the three things is wrong |
| RentShape.CheckTransfer | backend/src/rentshape.ts:183-197 | accepts exactly the first confidential transfer from the wallet's own account under its own signature; otherwise says which requirement fails first |
| RentShape.CheckPayRent | backend/src/rentshape.ts:199-211 | accepts exactly the first pay_rent of the wallet directly behind a confidential transfer; otherwise says which requirement fails first |
| RentShape.TreasuryConfined | backend/src/rentshape.ts:19-55 | in an accepted transaction the treasury stands exactly in the funder, authority and close positions |
| ContextLedger.TransactionCost | backend/src/rentshape.ts:38-55 | an accepted transaction that takes effect lowers the treasury's lamports and claims by at most the range context's rent per create without a proof, its fee aside |
| ContextLedger.ProvedCreateIsHeld | backend/src/rentshape.ts:38-55 | a context created with a proof beside it ends the transaction under the treasury's authority, or closed back to it; otherwise the transaction closed it and then created the account again |
| ContextRuns.TreasuryBound | backend/src/rentshape.ts:38-55 | over any run of accepted transactions landing, with anyone else acting in between, these fall by at most the fees, also of those that take no effect, and that rent per create without a proof |
| ContextRuns.CostPerTransaction | backend/src/rentshape.ts:38-55 | hence per transaction by at most its fee and the cap on creates times the range context's rent |
| ContextDebits.Debit | backend/src/treasury.ts:539-540 | what a transaction takes out of the treasury is the rent of what it creates less what its closes bring in |
| ContextDebits.HiddenExactly | backend/src/rentshape.ts:46-52 | the fall of the balance, or zero, and what is hidden make up the rent an accepted transaction pays for creates without a proof; nothing is hidden exactly when there is no such rent or the closes bring in no more than the other creates cost |
| ContextDebits.DebitNoLargerExactly | backend/src/treasury.ts:539-540 | a transaction that takes effect on two ledgers takes no more out of the treasury on the second exactly when what it closes brings in no less there |
| ContextDebits.RefundsNoLess | backend/src/treasury.ts:539-540 | which it does when each context it closes holds no less there |
| RentLosses.BoundIsReached | backend/src/rentshape.ts:38-55 | there is an accepted transaction after which exactly one range context's rent is lost |
| RentLosses.BookingCoversExactly | backend/src/rentshape.ts:46-52 | at readings that do not move, the booking of an accepted transaction covers its fee and the rent it pays for creates without a proof exactly when its closes bring in no more than its other creates cost |
| RentLosses.RentUnbooked | backend/src/rentshape.ts:46-52 | an accepted transaction for which they bring in more: it creates the range context and closes one as large, only its fee is booked, and the new context's rent can be lost |
| RentLosses.RefundCanShrink | backend/src/treasury.ts:539-556 | an accepted transaction, and two ledgers that someone else leads from one to the other, for which the closes bring in less: the landing takes out a whole rent that the simulation did not show |
| ContextUses.ContextUse | backend/src/rentplan.ts:33-47 | lists exactly the contexts that are created, verified into or closed, and closed |
| ContextUses.OnlyUsedContextsChange | backend/src/rentplan.ts:33-47 | executing an accepted transaction changes no context that was not listed |
| ContextUses.GoneMeansClosed | backend/src/rentplan.ts:33-47 | a context that disappears was listed as closed |
| ContextUses.OthersContextsStay | backend/src/rentplan.ts:82-89 | in every reachable registry, a transaction admitted for one wallet changes, when executed on any ledger, no context registered to another |
| Cosigning.CosignBooks | backend/src/treasury.ts:518-596 | what is booked is within the reservation, and covers what the transaction takes out and its fee exactly when the balance before it was at most the larger of the two readings, or at most what the simulation leaves |
| Cosigning.VerdictExactly | backend/src/treasury.ts:518-596 | cosigning fails exactly when a reading, the simulation, the bound, a credit where none is allowed, signing or (live) a send known not to have landed says so; otherwise it was signed, sent or unknown by mode and send, and takes the larger reading less what the simulation leaves |
| Cosigning.FailuresExactly | backend/src/treasury.ts:525-585 | each failure stands for the first thing that goes wrong |
| Cosigning.OneWayIsCovered | backend/src/treasury.ts:540-556 | whenever the balance moves one way from the first reading to the second, the booking covers the debit from any of the balances in between |
| Cosigning.SetupSettles | backend/src/treasury.ts:502-515 | on the setup route, cancelling after an unknown outcome leaves the booking: it is dropped exactly when nothing can have landed |
| TreasuryRuns.KeptOrReleasedTogether | backend/src/treasury.ts:674-712 | for any interleaving, a request's booking and plan change are both kept when it is kept, both taken back when it is released, both held before; its booking is within its reservation (which of these an outcome leads to: `TreasuryAnswers.KeptExactly`; its replay hash: `TreasuryReplay.ReplayRefusedExactly`) |
| TreasuryAnswers.KeptExactly | backend/src/treasury.ts:698-712 | after any run, an outcome keeps a request in flight, at its fee and what it took out of the treasury, exactly when both balances were read, the simulation left an amount, the larger reading less that is within the bound (a credit too), signing succeeded and (live) the send did not prove that it failed to land; otherwise it releases it; no other request changes |
| TreasuryAnswers.BegunExactly | backend/src/treasury.ts:674-696 | after a clean run in time order, a request begins exactly when no request for its message, begun at most five minutes ago, is in flight or kept, its worst case fits the caps, and the plan registry has nothing against it; each refusal is exactly the first of these that fails |
| TreasuryRuns.EveryBookingIsARequest | backend/src/treasury.ts:681-696 | a request refused on the way in leaves no booking |
| TreasuryRuns.LimiterCountsRequests | backend/src/treasury.ts:674-712 | in any window the limiter has booked exactly the worst case of requests in flight and the cost of those kept |
| TreasuryRuns.CapsHold | backend/src/treasury.ts:601-606 | the caps hold at every instant of every run in time order |
| TreasuryRuns.NoContextShared | backend/src/treasury.ts:688-696 | no context ever belongs to two wallets, whatever fails and whenever |
| TreasuryReplay.NoMessageCosignedTwice | backend/src/treasury.ts:674-679 | in a run where no failure deletes another request's hash, no message is cosigned twice inside the replay window |
| TreasuryReplay.ForgottenExactly | backend/src/treasury.ts:703-711 | an event makes the desk forget a held request's hash exactly when it is the failure of a request whose hash is by then another's |
| TreasuryReplay.ReplayRefusedExactly | backend/src/treasury.ts:676-679 | a call is refused as a replay exactly when a request for the same message, begun within the window, is in flight or kept |
| TreasuryReplay.TimelyRunsAreClean | backend/src/treasury.ts:703-711 | failures that arrive within the window of their request delete no other request's hash |
| ReplayLifetime.NoMessageKeptTwice | backend/src/treasury.ts:674-712 | if the cluster takes no message later than the window after the first request with it, no message is cosigned and kept twice in any run in time order, late failures included |
| ReplayGaps.LateFailureLetsReplayIn | backend/src/treasury.ts:674-712 | a run in which a late failure lets one message be cosigned twice, two milliseconds apart, if the cluster still takes it after the window |
| ReplayGaps.ExpiryLetsReplayIn | backend/src/treasury.ts:676-679 | a run without failures in which one message is cosigned twice, just over the window apart |
| TreasuryDesk.Desk.constructor | backend/src/treasury.ts:601-610 | the desk with nothing in it |
| TreasuryDesk.Desk.Forget | backend/src/treasury.ts:678 | drops exactly the hashes past the window |
| TreasuryDesk.Desk.Claim | backend/src/treasury.ts:681-696 | reserves, admits, and cancels the booking when the plan refuses |
| TreasuryDesk.Desk.Begin | backend/src/treasury.ts:674-697 | the synchronous half of a request takes the step of the state machine, on the limiter and registry objects |
| TreasuryDesk.Desk.Finish | backend/src/treasury.ts:698-712 | the outcome of a request takes the step of the state machine, with the verdict that `Cosigning.VerdictExactly` and `Cosigning.FailuresExactly` pin |
| TreasuryDesk.Desk.Release | backend/src/treasury.ts:707-711 | a failure forgets the hash, runs the undo and cancels the booking |
| TreasuryLoss.LandingIsBooked | backend/src/treasury.ts:518-596 | a landing takes no more out of the treasury, its fee included, than was booked for its request, if the simulation ran on a ledger of the same run, at a balance that `Cosigning.CosignBooks` covers, and what the transaction closes brings in no less at the landing |
| TreasuryLoss.AuthorityKeptSuffices | backend/src/treasury.ts:539-556 | which it does when what the transaction closes was the treasury's in the simulation and is closed by no other in between |
| TreasuryLoss.DailyFall | backend/src/treasury.ts:570-606 | under these conditions on each landing, whatever lands of requests made within one day lowers the treasury's balance by no more than the global daily cap, fees included, also of landings that take no effect |
| TreasuryLoss.DailyTotalFall | backend/src/rentshape.ts:46-52 | and the balance together with what can be claimed from contexts by no more than the cap and what the landings hide; so by no more than the cap, if every landing that pays for a create without a proof closes no more than its other creates cost |
| TreasuryLoss.NothingHiddenExactly | backend/src/rentshape.ts:46-52 | the landings hide nothing exactly when each meets that condition |
| RentDust.GrantedOnce | backend/src/treasury.ts:767-799 | however calls interleave, of a wallet's calls only the last can be under way or granted |
| RentDust.GrantedExactly | backend/src/treasury.ts:767-799 | in every reachable state an undisturbed call is granted exactly when the wallet is not the treasury, none of its calls is under way or granted, it holds less than the amount, and the limiter has room |
| RentDustTwice.PaidTwiceMeans | backend/src/treasury.ts:776-799 | if two transfers to a wallet land, the first was reported as failed, and when the second call read the balance the first had not landed or was spent |
| RentDustTwice.PaidTwice | backend/src/treasury.ts:776-799 | a run in which that happens, the first payment spent and only one payment booked |
| RentPay.FlattenKeepsOrder | backend/src/rentpay.ts:96-97 | flattening a plan tree keeps its instructions in execution order |
| RentPay.SpliceAfterTransfer | backend/src/rentpay.ts:105-119 | splices in place behind the first transfer of the last message with one, and fails, changing nothing, when there is none |
| RentPay.SpliceKeepsOrder | backend/src/rentpay.ts:99-119 | over the whole plan the splice puts the rider directly behind a transfer and keeps everything else in order |
| RentPay.SpliceFailsExactly | backend/src/rentpay.ts:118 | it fails exactly on plans without a transfer |
| RentPay.RiderPassesAdjacency | backend/src/rentshape.ts:205-209 | a lone rider passes the filter's pay_rent rule exactly when its own fields do |
| RentAudit.RecombineUndoesSplit | backend/src/confidential.ts:228-230 | recombining the 16-bit and the high half of an amount gives it back, and nothing else splits so |
| RentAudit.AuditTransaction | backend/src/confidential.ts:279-306 | reads every confidential transfer of a transaction in order, or fails if one cannot be read |
| RentAudit.VerifyRentPayment | backend/src/confidential.ts:353-391 | pairs the first pay_rent with the instruction before it, decrypting nothing for another lease |
| RentAudit.AnswerMeans | backend/src/confidential.ts:325-391 | the check passes exactly when the first pay_rent is for the lease asked about and the transfer directly before it moved the expected amount |
| RentAudit.FilterAgreesWithAuditor | backend/src/confidential.ts:356-380 | in every transaction the filter accepts, the auditor pairs the pay_rent with the transfer the filter saw before it |
| RentAudit.SplicedRiderIsPaired | backend/src/rentpay.ts:95-119 | a pay_rent spliced into a plan with one transfer is paired by the auditor with that same transfer |
| WalletAuthRuns.OneLoginFewAttempts | backend/src/wallet-auth.ts:123-143 | over every run with fresh nonces a challenge logs in at most once and takes at most the configured bad signatures, and is gone after either |
| WalletAuthRuns.LoginWasChallenged | backend/src/wallet-auth.ts:123-143 | whoever logs in signed, before it expired, the very message issued to that wallet under that nonce |
| WalletAuthAnswers.LoginExactly | backend/src/wallet-auth.ts:123-140 | in every run with fresh nonces a login is answered by a session exactly when its nonce is pending, was issued to that wallet and has not expired, and the signature verifies, whatever bad signatures came before; likewise exactly when it is told that there is no challenge, that it expired, or that the signature is bad |
| WalletAuthAnswers.LoginLeaves | backend/src/wallet-auth.ts:128-138 | a login, an expiry or the last bad signature takes the challenge away, an earlier bad one only counts, and no other challenge changes |
| WalletAuthAnswers.LoginAfterWrongOnes | backend/src/wallet-auth.ts:123-140 | fewer wrong signatures than the cap and then a right one in time log the wallet in; as many as the cap, and the challenge is gone |
| WalletAuthAnswers.AskLeaves | backend/src/wallet-auth.ts:92-120 | a new challenge leaves exactly the unexpired ones among the newest that fit the store, of its own wallet only the oldest that fit its share |
| WalletAuthAnswers.IssuedIsPending | backend/src/wallet-auth.ts:103-120 | a challenge just issued is pending, with no attempt counted and the configured expiry |
| WalletAuthRuns.CapsHold | backend/src/wallet-auth.ts:92-121 | the store and every wallet's share of it stay within their caps |
| WalletAuthRuns.OldestSurvive | backend/src/wallet-auth.ts:95-102 | while the store is not full, a wallet's oldest challenges, one fewer than its share, survive any number of later ones |
| WalletAuth.OldestGone | backend/src/wallet-auth.ts:97 | the first eviction loop leaves the newest, one fewer than the cap, and does nothing when there is room |
| WalletAuth.NewestGone | backend/src/wallet-auth.ts:100-102 | the second leaves the wallet its oldest challenges and every other wallet all of its own |
| WalletAuthStore.Auth.constructor | backend/src/wallet-auth.ts:76-77 | the empty store |
| WalletAuthStore.Auth.Drop | backend/src/wallet-auth.ts:79-86 | removes a nonce from both maps; the index stays exact, in issue order, without empty lists |
| WalletAuthStore.Auth.Sweep | backend/src/wallet-auth.ts:87-90 | drops exactly the expired challenges |
| WalletAuthStore.Auth.EvictOldest | backend/src/wallet-auth.ts:97 | the first eviction loop, on both maps |
| WalletAuthStore.Auth.EvictNewest | backend/src/wallet-auth.ts:100-102 | the second eviction loop, on both maps |
| WalletAuthStore.Auth.Challenge | backend/src/wallet-auth.ts:92-121 | issues a challenge as the state machine does, and keeps the index exact |
| WalletAuthStore.Auth.VerifyLogin | backend/src/wallet-auth.ts:123-143 | checks a login as the state machine does (exactly when it succeeds: `WalletAuthAnswers.LoginExactly`), and keeps the index exact |
| Windows.Admitted | backend/src/rpcproxy.ts:246-248 | admitting work within a window's budget keeps every half-open minute within two budgets, and one more per eviction |
| Windows.Evicted | backend/src/rpcproxy.ts:239 | evicting a window costs at most one more budget, in the minutes that contain the eviction |
| RpcLimiterRuns.WorkInAnyMinute | backend/src/rpcproxy.ts:226-250 | in any half-open minute the work admitted is at most twice the global budget, and for a key at most twice its own, once more for each eviction of that key in that minute; its own is the configured one, or three times that for a key ending in ":unknown" |
| RpcLimiterAnswers.AdmittedExactly | backend/src/rpcproxy.ts:231-249 | in every run a call is admitted exactly when the work admitted in everyone's current window, and in its key's, leaves room for its weight in the global and in the key's own budget; which of the two refuses it, and the seconds it is told to wait, are exact too |
| RpcLimiterAnswers.WindowsStay | backend/src/rpcproxy.ts:232-242 | a window lasts a minute from when it was opened; another key's changes only by being evicted for a new key in a full table |
| RpcLimiterRuns.TableBoundedAndOrdered | backend/src/rpcproxy.ts:236-242 | the table keeps to its size and lists windows oldest first |
| RpcLimiterRuns.EvictionTakesOldest | backend/src/rpcproxy.ts:239 | a key evicted has a window no younger than any that stays |
| RpcLimiter.WaitIsEnough | backend/src/rpcproxy.ts:233-246 | a caller that waits as long as it is told finds the window over, and a second less would not do |
| RpcAdmission.Limiter.constructor | backend/src/rpcproxy.ts:227-230 | an empty table and a new global window |
| RpcAdmission.Limiter.Admit | backend/src/rpcproxy.ts:231-249 | a call takes the step of the state machine on the table in place; `RpcLimiterAnswers.AdmittedExactly` says when it is admitted |
| Session.OneRequestShared | app/src/auth/session.ts:192-217 | of a wallet's requests since its last sign-out at most one waits, and every caller without a session is handed that one |
| Session.ObtainedExactly | app/src/auth/session.ts:192-217 | in every reachable state a caller gets the cached session exactly when it lasts for more than another minute, the stored one exactly when none is cached and it is for this wallet, has a token and lasts, and otherwise the request waiting since the last sign-out, or a new one if there is none |
| Session.NothingOutlivesSignOut | app/src/auth/session.ts:62-70 | after a sign-out, cache and storage hold only answers to requests made after it |
| Session.LateAnswerChangesNothing | app/src/auth/session.ts:200-209 | an answer to a request from before the sign-out changes neither cache nor storage nor what is in flight |
| Session.AfterTheAnswer | app/src/auth/session.ts:188-217 | a failure is not cached, an answer is |
| Session.HeldTokenIsObtained | app/src/auth/session.ts:220-223 | the token held is that of the session a caller would get at once |
| SessionCache.Cache.constructor | app/src/auth/session.ts:184-185 | a page load: nothing cached, earlier storage as it is |
| SessionCache.Cache.HeldSession | app/src/auth/session.ts:193-194 | the cached session, else the stored one, if fresh |
| SessionCache.Cache.Obtain | app/src/auth/session.ts:192-217 | the held session, the promise in flight, or a new one |
| SessionCache.Cache.Resolve | app/src/auth/session.ts:203-209 | an answer is kept only while its own promise is in flight |
| SessionCache.Cache.Reject | app/src/auth/session.ts:210-213 | a failure takes its own promise out of flight |
| SessionCache.Cache.Clear | app/src/auth/session.ts:62-70 | forgets the wallet's session and its request |
| Invites.StoreSound | backend/src/invites.ts:174-185 | in every reachable store the two maps are inverse, expiry is within the selection window, and a claimed wallet is no party |
| Invites.IssuedExactly | backend/src/invites.ts:268-307 | an invite goes out exactly when a party asks in mediation, nobody is bound, the name is the agreed one and the window is open; it ends with its time to live or with the window |
| InviteAnswers.IssueRefusedExactly | backend/src/invites.ts:275-310 | each refusal stands for the first requirement that fails, and changes nothing |
| Invites.ClaimedOnce | backend/src/invites.ts:384-402 | an invite keeps its lease, parties, name and window, and once claimed its wallet |
| Invites.ClaimIsFinal | backend/src/invites.ts:384-402 | after a claim, whatever happens next, the same wallet gets the same answer and every other is refused |
| Invites.ReissueKillsOldToken | backend/src/invites.ts:328-333 | issuing again for a lease kills the earlier token in every later state |
| Invites.ResolvedIsBound | backend/src/invites.ts:240-258 | a token opens only the invite it was issued with, before that expires |
| InviteAnswers.OpensExactly | backend/src/invites.ts:240-258 | whatever happened since it was issued, a token opens its invite exactly until that expires, unless another went out for the same lease; what it opens is what was issued, but perhaps claimed |
| InviteAnswers.ClaimedExactly | backend/src/invites.ts:384-402 | a token that opens its invite binds the first wallet that is no party, answers that wallet again and refuses every other; one that does not is refused for the reason it does not |
| InviteStore.Store.constructor | backend/src/invites.ts:174-176 | the empty store |
| InviteStore.Store.Sweep | backend/src/invites.ts:178-185 | removes exactly the expired records and their index entries |
| InviteStore.Store.Issue | backend/src/invites.ts:302-333 | the synchronous end of issuing takes the step of the state machine |
| InviteStore.Store.Resolve | backend/src/invites.ts:240-258 | finds the record a token is for, or says why not |
| InviteStore.Store.Claim | backend/src/invites.ts:384-402 | sweeps, resolves and binds the record in place |
| AppraiserName.DisplayIsCanonical | backend/src/dispute.ts:113-121 | two accepted names display alike exactly when they have the same words |
| AppraiserName.DisplayIsIdempotent | backend/src/dispute.ts:113-121 | a displayed name displays as itself |
| AppraiserName.SplitUndoesJoin | backend/src/dispute.ts:114 | splitting joined words on whitespace gives the words back |
| AppraiserName.DisplayIsSpaced | backend/src/dispute.ts:113-121 | whitespace is single inner spaces only, the length in UTF-8 bytes (section 3 of RFC 3629) is within the limit, nothing is control or invisible |
| AppraiserName.AcceptedExactly | backend/src/dispute.ts:113-121 | a name is accepted exactly when it has a word, fits, and has no control or invisible character that is not whitespace |
| AppraiserName.SameCompanyExactly | backend/src/dispute.ts:123-130 | with a digest that does not collide, two names hash alike exactly when their words agree up to ASCII case |
| Layout.ComputeLayout | backend/src/layout.ts:58-68 | for an acyclic IDL, the layout whose offsets are the sums of the sizes before them, or the first field's error (what the sizes mean: `LayoutSizes.SizeIsLongest`) |
| Layout.FieldsTile | backend/src/layout.ts:62-67 | every byte behind the discriminator up to the size belongs to exactly one field |
| Layout.OffsetsAreStarts | backend/src/layout.ts:61-67 | each field name is mapped to where its field starts, and nothing else is mapped |
| LayoutSizes.ScalarsAre | backend/src/layout.ts:34-36 | the table of scalar sizes, and that no other name is a scalar |
| LayoutSizes.SizeIsLongest | backend/src/layout.ts:38-55 | a size derived for a type is the most bytes a value of it takes when written out, and some value takes them: arrays, structs, options and enums included |
| LayoutSizes.AccountIsLongest | backend/src/layout.ts:58-68 | an account's size is its discriminator and the most its struct takes |
| LayoutSizes.DerivableExactly | backend/src/layout.ts:38-55 | there is a size exactly when nothing in the type is of variable length, of an unknown scalar type or missing from the IDL |
| AccountLayouts.ProfileLayout | backend/src/layout.ts:85-91 | the pinned layout of a profile, 94 bytes, is the one computed from the IDL |
| AccountLayouts.ApplicationLayout | backend/src/layout.ts:92 | the pinned layout of an application, 104 bytes, is the one computed from the IDL |
| AccountData.RewritingOneField | backend/src/layout.ts:163-168 | rewriting a field's bytes leaves every other field's and the discriminator |
| LeaseRecord.DecodesExactly | backend/src/lease.ts:45-76 | decoding gives a lease exactly when an account can hold that lease and this one holds its bytes |
| LeaseRecord.RoundTrip | backend/src/lease.ts:45-76 | a lease written in the order of any IDL with its fields decodes to itself |
| LeaseRecord.RewriteChangesOneField | backend/src/lease.ts:45-76 | rewriting one field changes what is decoded for it and nothing else |
| LeaseRecord.PinnedLayout | backend/src/layout.ts:75-84 | the pinned layout of a lease is the one computed from the IDL |
| DisputeRecord.RoundTrip | backend/src/dispute.ts:165-214 | a dispute with up to three candidates a side, written in the order of any IDL with its fields, decodes to itself |
| DisputeRecord.StrideIsDerived | backend/src/dispute.ts:44-55 | the stride and the name limit derived from the offsets are those of the candidate type |
| DisputeRecord.UnsetIsNone | backend/src/dispute.ts:179 | an all-zero hash or key always reads as not set |
| DisputeRewrite.DecodableExactly | backend/src/dispute.ts:165-214 | under an IDL with these fields an account decodes exactly when it has a dispute's size and discriminator |
| DisputeRewrite.RewriteChangesOneField | backend/src/dispute.ts:165-214 | rewriting one field, with whatever bytes, leaves an account that decodes, to a dispute that differs in that field only; a side's candidates come from its array and its count |
| DisputeRewrite.OtherReadingsStay | backend/src/dispute.ts:165-214 | rewriting one field leaves every number, key and choice read from another |
| DisputeRewrite.OtherCandidatesStay | backend/src/dispute.ts:184-196 | and the candidates of a side, unless its own array or count is rewritten |
| DisputeLayout.PinnedLayout | backend/src/layout.ts:101-109 | the pinned layout of a dispute is the one computed from the IDL, and gives a candidate of 105 bytes with 64 for the name |
| DisputeLayout.FieldsFit | app/idl/relstate.json:3888-4035 | the IDL's dispute has the fields, sizes and order that decoding and rewriting ask for |
| SponsorAta.SponsorFundedAtaInstructions | backend/src/txinspect.ts:332-369 | finds the one instruction that funds the token account of the only verdict's signing appraiser, if exactly one does |
| SponsorAta.AssertSponsorNotUsedByInstructions | backend/src/txinspect.ts:388-404 | accepts exactly transactions in which the sponsor is no program and stands in no instruction but that one; otherwise names the first |
| SponsorAta.FeePayerOccursOnce | backend/src/txinspect.ts:332-404 | in an accepted transaction the fee payer occurs at most once: as payer of an idempotent create before the only verdict, for its account, mint, token program and signing appraiser, who is someone else |

## Left out

- The on-chain program, the proof system and the token programs: transactions are executed only as far as the header of backend/src/rentshape.ts describes them, and whether a proof is sound is left open.
- RPC, HTTP routes, polling, retries, e-mail, files and environment: their answers are parameters of the model.
- Cryptography (HMAC, Ed25519, ElGamal, SHA-256) and text encodings (base58, base64, JSON): abstract, with freshness or injectivity assumed only where a statement says so. Candidate names are kept as bytes.
- Decoding transactions from the wire: the model starts from the decoded instruction list, where an instruction's index is its position.
- `wrap` and `unwrap` against the chain: check and act are separated by awaits, so the reserve invariant holds only for calls that do not overlap.
- `readComputeBudget`, `worstCaseFeeLamports`, `createIpLimiter`, `assertConfidentialSetupShape` and `accountRoles`: they would add easy members.
- Error messages: where an operation can fail in several ways the model keeps the kind of error and the instruction's index, not the text.
- RentPlanRegistry.Registry.Sweep: reads the clock once, where the program reads it again for each plan; the same holds for the rest of one synchronous call, except that `Treasury.Call` has the readings of the replay map, the limiter and the registry apart and `WalletAuth.Challenge` those before and after its evictions.
- RentPlanRegistry.Registry.OwnerOf: maps are searched in some order, not in insertion order; in every reachable registry there is only one answer.
- RentPlanRuns.NestedUndosRestore: says nothing of undos in other orders, because those need not restore: undoing a create after its close, and then the close, registers the context again.
- TreasuryLoss.LandingIsBooked: takes as given, in `Foreseen`, that the simulation did what the executor of `ContextLedger` does, on a ledger of the same run, at a balance its two readings cover, and that the closes bring in no less at the landing; the executor leaves out proofs, token programs and accounts other than proof contexts.
- ReplayLifetime.NoMessageKeptTwice: takes as given, in `LandableRun`, how long the cluster takes a message; the blockhash itself is not part of this model.
- RentDust.GrantedExactly: leaves out how the amount is computed from the rents of the accounts.
- RateLimiter.Limiter.Reserve: requires, as all of the limiter does, a clock that does not run backwards; the lists are sorted by time only then.
- Layout.ComputeLayout: is modelled for acyclic IDLs only; on a cyclic one the program overflows its stack.
- DisputeRecord.RoundTrip: leaves out the rounding of deadlines beyond 2^53 to floating point, and layouts whose two candidate arrays are not a whole number of candidates apart, which the model refuses.
- InviteAnswers.OpensExactly: has the one expiry that `Invites.IssuedExactly` gives.
- LayoutSizes.SizeIsLongest: is about how many bytes a value takes, not which, and asks that every enum have a variant.
- Invites.IssuedExactly: gives the token and the record one expiry; the program computes the token's from a second reading of the clock, so it can end later than the record, whose own expiry is checked too.
- SessionCache.Cache.Obtain: treats stored text that does not parse as nothing stored, and removing from storage as always possible.
- React components, wallet adapters, events and geography (floating point, Unicode normalisation), gamification, the site and scripts.
