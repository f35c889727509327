# The LETS escrow protocol in Dafny

A finite budget of rights is split over wardens. Leases take rights out of a warden's pool or out of
a parent lease, vouchers carry rights (or a whole child lease) from one warden to another, and an
executor claims signed receipts at most once. The repository explores this protocol to a bounded
depth; this project states and proves it for every number of wardens, leases, vouchers, receipts
and amounts, and proves the exploring programs themselves.

| modules | what they model |
|---|---|
| `Escrow`, `EscrowInvariant` | the nine actions of the distributed step model, and an inductive invariant of every run |
| `EscrowValidate` | the checker's `validate`, loop by loop, against one-line readings of its invariants; every run passes it |
| `EscrowJournal`, `EscrowChronicle` | when each action is let through and what it enters in every table; what the tables of a run tell about its attempts |
| `EscrowBranch`, `EscrowWardens` | books kept beside a run: what every lease was created with, spent and gave back, branch by branch and warden by warden |
| `EscrowEffects` | receipts and claims by branch, bounded by what the branch was created with |
| `EscrowHistory`, `EscrowGuarantees`, `EscrowLineage`, `EscrowSensitivity`, `EscrowVerdict`, `EscrowDelivery` | claims, credits, checkpoints and streams over whole runs; active ancestors; the validator of histories; what a pass of the validators means; the order of delivery |
| `Reachability`, `SearchInvariant`, `Search`, `SearchFrontier`, `SearchExplore`, `EscrowSearch`, `EscrowExplored` | the three breadth-first searches over any finite-branching successor function, and the escrow model put through them |
| `KernelSpec`, `KernelInvariant`, `KernelGuarantees`, `KernelLineage`, `KernelProgress`, `KernelSystem`, `KernelSafety`, `KernelExactly`, `KernelWardens` | the reference kernel as functions on values, what every run of calls and transfers over many wardens keeps, and when each call succeeds and what it does |
| `KernelHeap`, `KernelSystemHeap`, `KernelRun`, `KernelSystemRun` | the same kernel as objects updated in place, in the source's order of writing; each method equals its function, and a list of moves on the objects equals the run |
| `DelegationShape`, `DelegationTree`, `DelegationSite` | the heap tree of leases at a site with its aliased list of leaves |
| `Counters` | the durable counter and the replicated counter, against a rule on the requests alone |
| `RoundRobin`, `NonceCache`, `NullAnalysis`, `Framing` | smooth weighted round robin, the replay cache of peer authentication, the null analysis of schemas, the framing of digested sources |
| `Common`, `MapSums`, `Shares` | sums over sequences and maps, division into parts |

Modelling decisions:

- An action that raises in the source is `None` (escrow), `Raised` (kernel) or an error result; a
  run takes any sequence of attempted actions, and a refused one leaves the state alone.
- Amounts, times and ids come in as arguments, so every statement holds for all of them. Wall clock
  and memory ceilings of a search are a nondeterministic reading against a limit.
- The step model keeps its tables in order of creation. The source sorts them by id after each
  replacement; `EscrowValidate.SortingChangesNothing` shows that this is the same sequence.
- A signature is the payload that was signed, and a valid one is the payload of the lease at hand.
- The share split, the tree's `split_allocation` and the searches keep the source's order of
  iteration; sets in the kernel loops are visited in any order, and the result does not depend on it.
- `prepare_transfer` does not check that the target warden exists, and neither does the model: such
  a voucher can be prepared and never accepted.
- Child expiry within the parent's, and the absence of live children under a closed parent, are not
  promised by the kernel and not claimed here.

Some properties do not hold on all inputs of the code. For each there is a lemma with an input that
fails and the exact condition, for all inputs, under which the code meets it:

- The order of delivery matters once two lease vouchers create leases that can be told apart
  (`EscrowDelivery.LeaseArrivalsNeedNotCommute`; exactly `EscrowDelivery.ConfluentExactlyWhen`).
- The kernel accepts negative allocations and negative transfers, and then goes below zero
  (`KernelSafety.NegativeGrantFails`, `KernelSafety.NegativeTransferFails`; exactly
  `KernelLineage.AllocationDecidesSolvency` and `KernelSafety.AmountDecidesSolvency`).
- A kernel call that raises after its first write would lose rights; it takes vectors of mixed
  dimensions, which no run produces (exactly `KernelGuarantees.RaisedCloseLosesExactlyWhen`).
- A peer message is accepted a second time when the clock readings fall in the order in which the
  calls hold the lock (`NonceCache.OneSecondBackAdmitsReplay`; exactly
  `NonceCache.AcceptedAgainExactlyWhen`). The clock is read before the lock is taken, so this does
  not need a clock that runs back.
- The null analysis passes over the literal schema `true` among alternatives and can then call a
  property non-null that may be null (`NullAnalysis.LiteralTrueIsMissed`; exactly
  `NullAnalysis.SoundExactlyWhen`, wherever no schema combines `$ref`, `oneOf` and `anyOf`). Its
  "yes" is only cautious in general (`NullAnalysis.FalseComponentIsMisread`); with one keyword to a
  schema, no `oneOf` and no literal schemas it is right (`NullAnalysis.AnswerIsExact`).

## Model

| member | source | states |
|---|---|---|
| `EscrowInvariant.RunInv` | formal/model_checker.py:144-386 | every run of the nine actions, from any non-negative shares, keeps one inductive invariant: ids are 1..n below the next counters, no negative amount, conservation of the budget, lineage placement, vouchers backed by active parents, one remote child per accepted lease voucher, streams numbered in order, receipts backed by lease sequences, watermarks reached by a claim |
| `EscrowInvariant.HighestIsCount` | formal/model_checker.py:206-217 | the highest sequence on a stream is the number of its vouchers, so the next one is the count plus one |
| `EscrowJournal.JournalIsExact` | formal/model_checker.py:179-386 | after every run an action is let through exactly when the tables permit it, and then enters in pools, leases, vouchers, receipts, consumption and claims exactly what a journal on the tables says; otherwise nothing changes |
| `EscrowJournal.ClaimHonouredExactlyWhen` | formal/model_checker.py:369-386 | after every run, claiming an issued receipt leaves it claimed exactly when it was claimed before or no claimed receipt of its lease has its sequence or a later one; in that case the watermark of the lease ends at its sequence, and otherwise nothing changes |
| `EscrowJournal.IdleExactly` | formal/model_checker.py:220-294 | the two tests of a closing, on direct children and on their vouchers, decide whether anything in the whole branch is active or on its way |
| `EscrowChronicle.ClaimedExactlyWhen` | formal/model_checker.py:369-386 | in every run a receipt is claimed exactly when somebody asked for it, after it was issued, before anybody had asked for a later receipt of its lease |
| `EscrowChronicle.StatusTellsHistory` | formal/model_checker.py:318-366 | in every run a voucher is accepted exactly when somebody accepted it after it was sent, at a warden that exists, and finalized exactly when somebody finalized it after that |
| `EscrowChronicle.ClosedExactlyWhen` | formal/model_checker.py:281-294 | in every run a lease is closed exactly when somebody closed it while it was the only active lease of its branch and no child of the branch was on its way |
| `EscrowChronicle.SequenceCountsDeeds` | formal/model_checker.py:193-294 | in every run the sequence of a lease is the number of children it spawned, children it sent away and receipts it signed, and one more once it is closed |
| `EscrowWardens.EveryWardenBalances` | formal/model_checker.py:179-386 | in every run and for every warden, its pool, the residuals and the spending of its leases and all it has sent add up to its share and all that has arrived |
| `EscrowValidate.Validate` | formal/model_checker.py:401-512 | the checker returns the first violated invariant in its order, each invariant read as a statement about the state and not as the loop that tests it, and nothing exactly when all hold |
| `EscrowValidate.ValidateLeases` | formal/model_checker.py:401-455 | the first part of the checker, up to remote children and vouchers, agrees with that reading |
| `EscrowValidate.CheckLineage` | formal/model_checker.py:414-432 | the parent loop accepts exactly the tables in which every parent exists and warden and remote flag agree |
| `EscrowValidate.CountRemoteChildren` | formal/model_checker.py:433-437 | the dictionary filled by the loop counts, for every parent and warden, the remote children placed there |
| `EscrowValidate.CountVouchers` | formal/model_checker.py:438-449 | the voucher loop accepts exactly the tables in which kind and parent agree, and then counts accepted lease vouchers by parent and target |
| `EscrowValidate.ExpectedWatermarks` | formal/model_checker.py:492-497 | the loop builds the only map that gives every lease with a claim its highest claimed sequence |
| `EscrowValidate.InvIsValid` | formal/model_checker.py:401-512 | the inductive invariant implies every invariant the checker tests |
| `EscrowValidate.EveryRunIsValid` | formal/model_checker.py:179-512 | no run of any length, over any number of wardens, reaches a state the checker rejects |
| `EscrowVerdict.PassesExactlyWhen` | formal/model_checker.py:401-512 | the checker accepts a state, reachable or not, exactly when entry by entry nothing is negative or lost, nothing can be mistaken, every lease is rooted, remote children are as many as redeemed vouchers, and claims, watermarks and receipts are bound to leases |
| `EscrowValidate.SortingChangesNothing` | formal/model_checker.py:160-172 | sorting a table numbered 1..n by id gives the table back |
| `EscrowBranch.BooksFollowRun` | formal/model_checker.py:179-386 | keeping the books does not change the run |
| `EscrowBranch.PostBalances` | formal/model_checker.py:179-386 | each of the nine actions keeps every branch in balance |
| `EscrowBranch.BranchAccountsForGrant` | formal/model_checker.py:193-350 | in every run and for every lease, residuals, spending and refunds of its branch plus the lease vouchers in flight out of the branch equal what the lease was created with; all spending adds up to the rights consumed |
| `EscrowBranch.BranchNeverOverspends` | formal/model_checker.py:259-278 | no lineage, over however many wardens it is spread, consumes more than its first lease was given |
| `EscrowBranch.GrantsAttenuate` | formal/model_checker.py:193-256 | a lease anywhere below another was created with no more than it |
| `EscrowEffects.BranchEffectsAreBounded` | formal/model_checker.py:259-386 | in every run and for every lease, claims honoured in its branch are at most the receipts issued in it, these at most the rights spent in it, and these at most the rights the lease was created with |
| `EscrowHistory.ScanPrefix` | formal/sensitivity_frontier.py:402-433 | the checkpoint loop terminates and stops at the end of the longest finalized prefix of the stream |
| `EscrowHistory.StepAdvances` | formal/model_checker.py:179-386 | no action takes back a lease, a voucher status, a receipt, a claim or a watermark |
| `EscrowGuarantees.ReplayRecorded` | formal/sensitivity_frontier.py:362-452 | every interleaving of actions and checkpoints keeps the four event lists true of the state |
| `EscrowGuarantees.ClaimsNeverExceedBudget` | formal/sensitivity_frontier.py:728-736 | over any run no receipt is claimed twice, claims on one lease rise strictly, and claims, receipts, rights consumed and budget form a chain of at-most |
| `EscrowGuarantees.OvertakenForEver` | formal/model_checker.py:369-386 | a receipt that a claim has overtaken is never claimed in any continuation |
| `EscrowGuarantees.OneCreditPerVoucher` | formal/sensitivity_frontier.py:751-769 | a voucher has exactly one inbound credit once it is accepted, with its own route and sequence, and none before |
| `EscrowGuarantees.AuthorizationRecorded` | formal/sensitivity_frontier.py:739-748 | each step keeps the authorization events in one-to-one agreement with the receipts |
| `EscrowGuarantees.CheckpointTaken` | formal/sensitivity_frontier.py:402-433 | taking a checkpoint at any moment leaves all checkpoints finalized prefixes that rise along their stream |
| `EscrowGuarantees.CheckpointMissesNothing` | formal/sensitivity_frontier.py:402-433 | in every history, after taking a checkpoint of a stream the recorded ones reach q exactly when the sequences 1..q are all finalized; the list grows by at most that event, and only when no earlier checkpoint of the stream reached as far |
| `EscrowGuarantees.CheckpointsAreForEver` | formal/sensitivity_frontier.py:772-791 | a checkpoint stays in the list and stays a fully finalized prefix in every later state, and later checkpoints of its stream lie strictly further |
| `EscrowGuarantees.StreamsHaveNoGaps` | formal/model_checker.py:206-217 | in every run each stream carries exactly the sequences 1..k, in order and without repetition, pool and lease vouchers together |
| `EscrowLineage.WalkAncestors` | formal/sensitivity_frontier.py:708-725 | the walk terminates on every table, answers whether all ancestors are known and active, and meets its cycle guard on no table whose parents have lower ids |
| `EscrowLineage.CheckActiveAncestors` | formal/sensitivity_frontier.py:708-725 | the whole loop accepts exactly the tables whose active leases have only active ancestors |
| `EscrowLineage.ActiveLeasesHaveActiveAncestors` | formal/model_checker.py:220-294 | in every run an active lease has only active ancestors up to its root, also when it crossed wardens, and the guard is never met |
| `EscrowSensitivity.ValidateSensitivity` | formal/sensitivity_frontier.py:794-800 | the validator of histories reports the first of its six checks that fails, each read as a statement about the history, and nothing exactly when all hold |
| `EscrowVerdict.HistoryPassesExactlyWhen` | formal/sensitivity_frontier.py:708-800 | the validator accepts a history, recorded or not, exactly when its state is acceptable, every active lease hangs from active ones, no receipt is claimed twice, every authorization was current, every inbound event has its voucher and every checkpoint its finalized prefix |
| `EscrowSensitivity.CheckInbound` | formal/sensitivity_frontier.py:751-769 | the loop accepts exactly the inbound events that name an accepted voucher by id, route and sequence |
| `EscrowSensitivity.CheckCheckpoint` | formal/sensitivity_frontier.py:772-791 | the loop accepts exactly the checkpoints whose every sequence is finalized on the stream |
| `EscrowSensitivity.ReplayIsRun` | formal/sensitivity_frontier.py:436-452 | a history's state is the state of the run of its actions |
| `EscrowSensitivity.EveryHistoryPasses` | formal/sensitivity_frontier.py:794-800 | no history, of any length and with checkpoints taken at any moments, is rejected |
| `EscrowDelivery.DeliverySettles` | formal/model_checker.py:318-350 | what any list of arrivals leaves, with repeats, refused and unknown ids, is a function of the set of ids and of the order in which lease vouchers first arrive |
| `EscrowDelivery.ConfluentExactlyWhen` | formal/model_checker.py:318-350 | from every reachable state, two lists with the same members lead to the same state exactly when the leases they create come in the same order, as far as these can be told apart |
| `EscrowDelivery.DeliveryIsConfluent` | formal/model_checker.py:318-350 | without lease vouchers, two lists with the same members lead every reachable state to the same state |
| `EscrowDelivery.ArrivalsCommuteExactlyWhen` | formal/model_checker.py:318-350 | two prepared vouchers can be delivered in either order with the same result exactly when one of them is a pool voucher or the leases they create cannot be told apart |
| `EscrowDelivery.LeaseArrivalsNeedNotCommute` | formal/model_checker.py:332-347 | a run of three actions after which two lease vouchers do not commute |
| `Search.CheckModel` | formal/model_checker.py:617-680 | it terminates; a pass has checked every state within the bound and nothing else; a violation comes with a real path of minimal length; the number of states checked is the number of states within the bound, and on a pass the depth reported is the last at which a new state appears |
| `SearchFrontier.AnalyzeFrontier` | formal/sensitivity_frontier.py:202-317 | each way of ending means what it says: exhausted means closed under successors and safe at every depth, a depth limit means safe within the bound with something beyond, a violation is real and of least depth, a resource limit means the clock was late or the problem has more states or transitions than the ceiling, and a search to the end has kept every ceiling |
| `SearchFrontier.ExpandWithCeilings` | formal/sensitivity_frontier.py:276-308 | expanding one state keeps the breadth-first invariant, or stops at a real violation or at a ceiling that is too low for the problem |
| `SearchFrontier.ProbeWithCeilings` | formal/sensitivity_frontier.py:246-274 | probing past the bound collects every state beyond it, or stops at a real violation or at a ceiling that is too low for the problem |
| `SearchFrontier.ExhaustionCoversEveryPath` | formal/sensitivity_frontier.py:227-317 | after exhaustion every path of any length stays among the visited states and violates nothing |
| `SearchExplore.Explore` | formal/vector_model_checker.py:479-578 | the same for the third search: shortest counterexample step by step, bound reached or exhausted, with the count of states |
| `SearchExplore.TraceSteps` | formal/vector_model_checker.py:458-476 | walking the parent dictionary back gives a chain of real steps from the start, as long as the depth |
| `Reachability.WithinIsReachable` | formal/model_checker.py:617-680 | the states within n steps are exactly the ends of paths of at most n labels |
| `Reachability.ClosedHoldsAll` | formal/sensitivity_frontier.py:227-317 | a set that holds the start and is closed under successors holds every reachable state |
| `EscrowSearch.EnabledIsListed` | formal/model_checker.py:515-610 | within the bounds, every action that does not raise is enumerated |
| `EscrowSearch.ListedIsEnabled` | formal/model_checker.py:515-610 | every enumerated action is enabled and within the bounds, so the enumeration never raises |
| `EscrowExplored.ExploredExactly` | formal/model_checker.py:515-680 | for every choice of bounds the states the checker visits within n steps are exactly the ends of runs of at most n attempts that never outgrow the bounds and never ask for more than the amount bound |
| `EscrowSearch.CheckerAlwaysPasses` | formal/model_checker.py:515-680 | whatever the bounds, the checker run on the escrow model can only pass |
| `KernelGuarantees.ApplyKeeps` | prototype/lets.py:195-432 | every call, accepted or refused, keeps the warden's books sound and pool plus consumption plus residuals constant in every component |
| `KernelGuarantees.RaisedCallMovesNothing` | prototype/lets.py:216-432 | in every sound warden nothing raises after the first write: a call that raises changes no pool, consumption, lease or revocation |
| `KernelGuarantees.RaisedCloseLosesExactlyWhen` | prototype/lets.py:406-417 | in any warden, closing raises with the lease already emptied exactly when the lease is live and its residual has another dimension than the pool |
| `KernelGuarantees.RunKeeps` | prototype/lets.py:195-432 | so does every sequence of calls with fresh lease ids |
| `KernelGuarantees.ReclaimBalances` | prototype/lets.py:419-432 | the residuals of all leases split, component by component, into what the lapsed leases give up and what the others keep |
| `KernelExactly.IssuesExactlyWhen` | prototype/lets.py:216-253 | a root is issued exactly when the costs of its machine have the dimension of the pool and no negative component and the pool covers the allocation; pool, lease and machine table change as told, and nothing else |
| `KernelExactly.SpawnsExactlyWhen` | prototype/lets.py:255-306 | on a sound warden a child is spawned exactly when the parent is on file, active, not expired and under no revocation along its parent links, holds the capabilities and covers the allocation, and the machine fits; the parent pays, and the kind of error is told otherwise |
| `KernelExactly.SpawnHangs` | prototype/lets.py:289-289 | the child hangs exactly from itself, its parent and what its parent hangs from |
| `KernelExactly.ExecutesExactlyWhen` | prototype/lets.py:308-341 | on a sound warden an execution succeeds exactly when the lease lives, exactly one transition of that name leaves its state, its capability is in the set, its guard accepts the evidence and the residual covers its cost; then the state is the target, the cost goes from residual to consumption component by component, and nothing else differs |
| `KernelExactly.QuiescesExactlyWhen` | prototype/lets.py:343-348 | a lease goes quiescent exactly when it lives, and only its status and sequence change |
| `KernelExactly.ResumesExactlyWhen` | prototype/lets.py:350-361 | it resumes exactly when it is quiescent, not expired and under no known revocation |
| `KernelExactly.ResumeUndoesQuiesce` | prototype/lets.py:343-361 | resuming in time gives the lease back as it was, two sequence numbers on |
| `KernelExactly.RenewsExactlyWhen` | prototype/lets.py:363-386 | a lease is renewed exactly when the term is positive, it lives, and its parent has not been revoked, expired or closed; the expiry is the one asked for, cut at that of the parent, and the test of the parent for revocations never decides anything |
| `KernelExactly.RevokesExactly` | prototype/lets.py:388-404 | news of a revocation goes on record, revokes every active or quiescent lease that hangs from the branch by its parent links, and counts them; what is not news changes nothing |
| `KernelExactly.ClosesExactly` | prototype/lets.py:406-417 | closing gives the whole residual back once, component by component, and a second closing gives nothing |
| `KernelExactly.ReclaimsExactly` | prototype/lets.py:419-432 | exactly the leases that have run out end, and the pool gains component by component what they held |
| `KernelExactly.ForgeryIsRefused` | prototype/lets.py:137-152 | a lease under a signature for another one is refused exactly when it differs from that one in a field the signature covers |
| `KernelLineage.RevokedBranchRefuses` | prototype/lets.py:445-458 | spawning, executing, quiescing, resuming and renewing at or below a revoked branch change nothing |
| `KernelLineage.AllocationDecidesSolvency` | prototype/lets.py:216-306 | a grant that succeeds keeps every residual between zero and its allocation, and the pool non-negative, exactly when its allocation is non-negative |
| `KernelProgress.CallMoves` | prototype/lets.py:255-432 | a call leaves a lease as it was or takes its next sequence number, and touches no ended lease |
| `KernelProgress.GrantsNestExpiry` | prototype/lets.py:255-386 | a lease just spawned or renewed expires no later than its parent does at that moment |
| `KernelSystem.SharesAddUp` | prototype/lets.py:462-473 | the div/mod shares of a component add up to the budget |
| `KernelSystem.SharesAreFair` | prototype/lets.py:462-473 | earlier wardens get no less than later ones, and at most one right more |
| `KernelSystem.NewSystemConserves` | prototype/lets.py:462-473 | a new system over distinct wardens accounts for its budget |
| `KernelSystem.RunConserves` | prototype/lets.py:475-535 | every step of every warden and every transfer keeps what the system accounts for |
| `KernelSystem.EveryRunConserves` | prototype/lets.py:461-535 | from the initial budget, after any run, free, residual, consumed and in-flight rights add up to the budget in every component |
| `KernelWardens.SetUpExactlyWhen` | prototype/lets.py:462-473 | a system can be set up exactly when there is a warden and nothing in the budget is negative |
| `KernelWardens.PreparesExactlyWhen` | prototype/lets.py:475-489 | a transfer is prepared exactly when its ends differ and the source is known and covers it; the source pays at once |
| `KernelWardens.AcceptsExactlyWhen` | prototype/lets.py:491-502 | in every consistent system a transfer is accepted exactly when it is known, its target exists and it was not accepted before; the target alone is credited, once |
| `KernelWardens.EveryWardenBalances` | prototype/lets.py:461-535 | after every run, at every warden and in every component, what it holds and has consumed and all it has sent add up to its share and all it has accepted |
| `KernelSafety.StoredPathAgrees` | prototype/lets.py:154-155 | after every run of calls and transfers, on every warden, the stored ancestor path answers as following parent links does |
| `KernelSafety.CapabilitiesShrink` | prototype/lets.py:517-535 | after every such run a lease's capabilities are within those of every ancestor on its path |
| `KernelSafety.RevokedBranchIsFrozen` | prototype/lets.py:388-404 | after a revocation at a warden, whatever the other wardens and the transfers do, nothing joins the branch there, none of it becomes active again, and a residual in it stays or goes back to the pool whole |
| `KernelSafety.SequenceTellsChange` | prototype/lets.py:255-432 | in any run a lease's sequence never falls, as long as it stands still nothing about the lease has changed, and a closed or expired lease never changes |
| `KernelSafety.EpochsNeverFall` | prototype/lets.py:388-404 | in any run a known revocation stays known and its epoch never falls |
| `KernelSafety.RevocationTakesHold` | prototype/lets.py:388-404 | a revocation is on record exactly when the branch was known or its epoch is not negative, and then, over every continuation, its epoch is at least that and nothing that hangs from the branch is active or quiescent |
| `KernelSafety.EveryRunHolds` | prototype/lets.py:517-535 | from any budget, over every run without negative requests, everything the system asserts holds: conservation, no negative pool, consumption or residual, no residual above its allocation, no capability beyond the parent's |
| `KernelSafety.AmountDecidesSolvency` | prototype/lets.py:475-502 | a prepared transfer keeps all wardens solvent over all later runs without negative requests exactly when its amount is non-negative or its target does not exist |
| `KernelSafety.NegativeTransferFails` | prototype/lets.py:475-502 | two rights over two wardens and a transfer of minus three leave a pool at minus two |
| `KernelSafety.NegativeGrantFails` | prototype/lets.py:216-253 | a grant of minus one succeeds and leaves a lease that owes |
| `KernelHeap.WardenObject.IssueRoot` | prototype/lets.py:216-253 | the new heap is the specified warden, the lease object is new and filed under its id, and nothing moves when it raises |
| `KernelHeap.WardenObject.SpawnLocal` | prototype/lets.py:255-306 | parent debited in place and child filed, as specified; refusals leave all rights alone |
| `KernelHeap.WardenObject.Execute` | prototype/lets.py:308-341 | residual, consumption, state and sequence are written in the source's order and end as specified, also when the addition in the middle raises; when that is, `KernelExactly.ExecutesExactlyWhen` says |
| `KernelHeap.WardenObject.SetQuiescent` | prototype/lets.py:343-348 | the status changes in place as specified, and nothing else |
| `KernelHeap.WardenObject.Resume` | prototype/lets.py:350-361 | the status changes back only where the specification lets it |
| `KernelHeap.WardenObject.Renew` | prototype/lets.py:363-386 | expiry and signature change in place as specified |
| `KernelHeap.WardenObject.RevokeBranch` | prototype/lets.py:388-404 | the loop over the lease table marks exactly the active and quiescent leases of the branch and counts them |
| `KernelHeap.WardenObject.Close` | prototype/lets.py:406-417 | the lease is emptied and closed, and then the pool credited, as specified, also when crediting raises |
| `KernelHeap.WardenObject.ReclaimExpired` | prototype/lets.py:419-432 | the loop expires exactly the lapsed leases and returns their total, in any order of visiting; it raises exactly when a lapsed residual has another dimension than the pool, with the leases visited before expired and the pool untouched |
| `KernelRun.Perform` | prototype/lets.py:176-458 | any call on a warden object does what the specification does, and moves nothing when it raises |
| `KernelRun.PerformAll` | prototype/lets.py:176-458 | a list of calls on the objects ends in the values the specification's run ends in |
| `KernelSystemHeap.SystemObject.PrepareTransfer` | prototype/lets.py:475-489 | the source's pool and the transfer table change as specified, every other warden is untouched |
| `KernelSystemHeap.SystemObject.AcceptTransfer` | prototype/lets.py:491-502 | the target is credited once as specified; a repeat changes nothing |
| `KernelSystemRun.NewSystemObject` | prototype/lets.py:462-473 | the loop over the names builds warden objects with the specified shares, no two sharing a lease object, or fails exactly when the specification does |
| `KernelSystemRun.PerformMoves` | prototype/lets.py:461-535 | a list of calls and transfers on the objects ends in the values the specification's run ends in, and these account for the budget |
| `DelegationShape.SplitIsFair` | benchmarks/fair_baselines/systems.py:490-492 | the parts add up to the units, fall, and differ by at most one |
| `DelegationShape.ResidualTotal` | benchmarks/fair_baselines/systems.py:486-487 | the recursion over children is the sum over all nodes |
| `DelegationShape.LeavesAreTheChildless` | benchmarks/fair_baselines/systems.py:481-484 | the recursion lists exactly the nodes of the tree that have no children, each once, in the order of the flat list of nodes |
| `DelegationTree.SpawnChildren` | benchmarks/fair_baselines/systems.py:764-787 | a tree of new nodes grows under the parent and every unit moves to the leaves; all leaves lie at the full depth, hold the whole divided by fanout to the depth rounded down or up, and are as many as that or as there are units; a parent's sequence counts its children, and the operations counted are the nodes created |
| `DelegationTree.EvenLeavesDiffer` | benchmarks/fair_baselines/systems.py:764-787 | any two leaves of such a tree differ by at most one unit |
| `Shares.NearLifts` | benchmarks/fair_baselines/systems.py:490-492 | rounded parts of rounded parts are rounded parts of the whole |
| `DelegationSite.CloseSubtree` | benchmarks/fair_baselines/systems.py:739-751 | every node ends at zero and exactly the tree's units are returned |
| `DelegationSite.Site.BuildTree` | benchmarks/fair_baselines/systems.py:789-812 | the pool becomes a tree with all units in leaves, spread evenly at the full depth, the leaf list aliased to it |
| `DelegationSite.Site.TeardownTree` | benchmarks/fair_baselines/systems.py:753-762 | the pool ends at exactly the units usable before |
| `DelegationSite.Site.Rebuild` | benchmarks/fair_baselines/systems.py:826-830 | rebuilding keeps the usable units, spreads them evenly and counts the closes and spawns |
| `DelegationSite.Site.NextLeafWithUnits` | benchmarks/fair_baselines/systems.py:832-840 | it finds the first leaf with units in cyclic order, and none only when no leaf has any |
| `DelegationSite.CycleGoesRound` | benchmarks/fair_baselines/systems.py:834-836 | the order of the scan begins at its start and goes on one by one, from the last leaf to the first |
| `DelegationSite.Site.Take` | benchmarks/fair_baselines/systems.py:842-877 | the decision is stale, exhausted, denied or granted exactly when the site has failed, has no units, is not authorized, or none of these; on a grant exactly the first leaf with units in cyclic order pays one, and otherwise no leaf does |
| `DelegationSite.Site.UsableUnits` | benchmarks/fair_baselines/systems.py:879-882 | the pool plus everything in the tree |
| `DelegationSite.Site.AcceptVoucher` | benchmarks/fair_baselines/systems.py:927-945 | usable units rise by exactly the voucher's amount when the warden accepts it, and are then spread evenly, and by nothing when it is lost at a failed site or rejected |
| `DelegationSite.GrantIsLargest` | benchmarks/fair_baselines/systems.py:969-972 | the grant is the largest number that is not above what is asked for and takes no more than half of what is usable, rounded up, and never negative |
| `DelegationSite.Site.ServeRequestTransfer` | benchmarks/fair_baselines/systems.py:959-995 | an unknown peer is an error, a failed site grants nothing, an outstanding voucher is answered again, and otherwise usable units fall by exactly the grant, which is kept outstanding |
| `DelegationSite.Site.ServeFinalize` | benchmarks/fair_baselines/systems.py:997-1004 | an acknowledged voucher is no longer outstanding, unless the site has failed; no unit moves |
| `DelegationSite.OpenSite` | benchmarks/fair_baselines/systems.py:526-617 | a new site holds its whole share in leaves, spread evenly |
| `Counters.MachineFollowsRule` | benchmarks/fair_baselines/systems.py:321-340 | each answer of the state machine is a rule on the requests alone: granted when fewer ids than the budget came before the id's first asking |
| `Counters.RepeatsGetFirstAnswer` | benchmarks/fair_baselines/systems.py:328-334 | asking again gets the first decision |
| `Counters.CountersAnswerAlike` | benchmarks/fair_baselines/systems.py:155-193 | on every request list the durable and the replicated counter give the same answer and remaining budget |
| `Counters.BudgetIsConserved` | benchmarks/fair_baselines/systems.py:336-340 | remaining plus consumed is the budget, and consumed is the number of distinct ids granted, the lesser of budget and ids asked for |
| `Counters.DurableCounter.Take` | benchmarks/fair_baselines/systems.py:155-185 | the tables change as the specification says and the reply is the recorded outcome with the remaining budget |
| `Counters.BudgetStateMachine.Take` | benchmarks/fair_baselines/systems.py:328-334 | the dictionary and the remaining budget change as the specification says |
| `RoundRobin.AccumulatorsBalance` | benchmarks/nsdi_strengthening/distributed_partition.py:204-216 | at every turn the accumulators sum to zero and none falls to minus the total weight |
| `RoundRobin.AccumulatorIsDebt` | benchmarks/nsdi_strengthening/distributed_partition.py:204-216 | an accumulator is turns times weight less picks times total weight |
| `RoundRobin.PickIsOwedMost` | benchmarks/nsdi_strengthening/distributed_partition.py:211-216 | every turn goes to the site that is owed most by the picks so far, and among equals to the first |
| `RoundRobin.PicksTrackShares` | benchmarks/nsdi_strengthening/distributed_partition.py:204-216 | after any n turns a site has had less than one pick above its exact share, and is short of it by at most one pick per other site |
| `RoundRobin.RoundsAreExact` | benchmarks/nsdi_strengthening/distributed_partition.py:204-216 | after k times the total weight each site has had exactly k times its weight |
| `RoundRobin.ScheduleRepeats` | benchmarks/nsdi_strengthening/distributed_partition.py:204-216 | the schedule repeats with the total weight as period |
| `RoundRobin.Schedule` | benchmarks/nsdi_strengthening/distributed_partition.py:204-216 | the loops over the accumulator list produce that schedule, and an error exactly when the total or the sum of the weights is not positive or a weight is negative |
| `RoundRobin.TakeTurn` | benchmarks/nsdi_strengthening/distributed_partition.py:211-214 | one turn in place is one turn of the specification |
| `NonceCache.PeerNonces.VerifyPeerAuth` | benchmarks/fair_baselines/site_agent.py:484-522 | the checks in their order, the purge loop and the insertion accept exactly what the specification accepts and leave its cache |
| `NonceCache.AcceptedExactlyWhen` | benchmarks/fair_baselines/site_agent.py:484-522 | in every run from the empty cache a call is let in exactly when its alias is known, nonce and hash have 64 characters, the timestamp is there and within 30 of the clock, body and code match, no earlier call let in under its key is still remembered, and fewer than 8192 are; remembering is told by the calls alone |
| `NonceCache.PeerNonces.Purge` | benchmarks/fair_baselines/site_agent.py:515-517 | popping the expired keys one at a time leaves exactly the live entries |
| `NonceCache.CacheStaysBounded` | benchmarks/fair_baselines/site_agent.py:518-521 | no run takes the cache past its limit |
| `NonceCache.RememberedWhileFresh` | benchmarks/fair_baselines/site_agent.py:499-521 | with readings that never fall in lock order, an accepted message is remembered for as long as its timestamp passes the skew test |
| `NonceCache.AcceptancesLieApart` | benchmarks/fair_baselines/site_agent.py:515-521 | two acceptances under one name and nonce lie further apart than the skew window |
| `NonceCache.NoMessageAcceptedTwice` | benchmarks/fair_baselines/site_agent.py:484-522 | with such readings no name, nonce and timestamp are accepted twice in any run |
| `NonceCache.AcceptedAgainExactlyWhen` | benchmarks/fair_baselines/site_agent.py:515-521 | with any readings, a key is accepted again exactly when some reading has passed its expiry and there is room |
| `NonceCache.ReplayNeedsFallingReadings` | benchmarks/fair_baselines/site_agent.py:499-521 | the same message is accepted again only after a later reading than its own second one |
| `NonceCache.OneSecondBackAdmitsReplay` | benchmarks/fair_baselines/site_agent.py:499-521 | a run in which a reading falls by one second and the same message is accepted twice |
| `NullAnalysis.SegmentIsLast` | scripts/generate_response_contract.py:58-58 | the name of a reference is the text after its last slash |
| `NullAnalysis.WalkIsExact` | scripts/generate_response_contract.py:51-81 | on every component map, cyclic or not, the walk with its seen-set terminates and answers no exactly when a finite unfolding of references rules null out; so does the walk that counts literals |
| `NullAnalysis.LiteralWalkIsSound` | scripts/generate_response_contract.py:51-81 | a schema the walk counting literals calls non-null is satisfied by null under no consistent reading, for all schemas and component maps |
| `NullAnalysis.NonNullIsSound` | scripts/generate_response_contract.py:51-81 | a schema the walk calls non-null is satisfied by null under no consistent reading of all its keywords together, when no alternative is the literal `true` |
| `NullAnalysis.LiteralWalkIsExact` | scripts/generate_response_contract.py:51-81 | with one keyword to a schema, no `oneOf` and no component that is `false`, the walk counting literals says yes exactly when null is possible, at any nesting and through any references |
| `NullAnalysis.AnswerIsExact` | scripts/generate_response_contract.py:51-81 | so does the source where no alternative is the literal `true`: both its answers are right |
| `NullAnalysis.FalseComponentIsMisread` | scripts/generate_response_contract.py:61-63 | a reference to a component that is `false` is answered yes, and null is not possible |
| `NullAnalysis.OneOfIsReadAsAnyOf` | scripts/generate_response_contract.py:65-76 | `oneOf` gets the answer of the same list under `anyOf` |
| `NullAnalysis.LaterKeywordsAreIgnored` | scripts/generate_response_contract.py:56-81 | the first keyword present in the order `$ref`, `oneOf`, `anyOf`, `const`, `type` decides, whatever the others hold |
| `NullAnalysis.ReadingDecides` | scripts/generate_response_contract.py:51-81 | where the source says no and no schema combines `$ref`, `oneOf` and `anyOf`, null is possible exactly when the schema reads so with literals counted, `oneOf` as exactly one, and all keywords together |
| `NullAnalysis.SoundExactlyWhen` | scripts/generate_response_contract.py:51-81 | for such schemas, at any nesting and through any references, the source's answer is right exactly when it is yes or the schema does not read as letting null through |
| `NullAnalysis.SoundExactlyWhenWalksAgree` | scripts/generate_response_contract.py:51-81 | with one keyword to a schema and no `oneOf`, that is exactly when the walk counting literals gives the same answer |
| `NullAnalysis.LiteralTrueIsMissed` | scripts/generate_response_contract.py:66-76 | three schemas the source calls non-null and null is valid against: the literal after an object, inside another list, under `oneOf` |
| `NullAnalysis.LiteralTrueCanBeHarmless` | scripts/generate_response_contract.py:66-76 | two schemas with a literal on which the source's answer is right although the two walks differ |
| `NullAnalysis.ListedExactlyWhen` | scripts/generate_response_contract.py:84-95 | a name is listed exactly when it is required, declared and ruled out for null |
| `NullAnalysis.NamesKeepOrder` | scripts/generate_response_contract.py:84-95 | the listed names keep the order and the repetitions of the required ones |
| `Framing.FeedDigest` | deploy/run_acceptance.py:85-110 | the loop feeds the domain and then one frame per path, or fails exactly when a path leaves the repository, is no file, or overflows a length prefix |
| `Framing.StreamIsWritten` | deploy/run_acceptance.py:91-109 | the stream is, path after path, the eight bytes of its length, the path, the length and name of its kind, the eight bytes of the content's length, and the content; byte i of a length is its digit at that place to the base 256 |
| `Framing.OutsideExactlyWhen` | deploy/run_acceptance.py:88-90 | a path is refused as outside exactly when it starts with a slash or has two dots alone between slashes or ends |
| `Framing.StreamRoundTrip` | deploy/run_acceptance.py:104-109 | a decoder inverts the framing for every list of records that fits the prefixes |
| `Framing.OnlyStreamsDecode` | deploy/run_acceptance.py:104-109 | the decoder accepts nothing but framed lists |
| `Framing.StreamDeterminesTree` | deploy/run_acceptance.py:85-110 | under one domain two digestible trees feed the same bytes exactly when they list the same paths in the same order and hold the same things there |

## Left out

- The vector model's own successor function, validator and mutants: its search is proved over any successor function, and its rules repeat the scalar model's in several dimensions, which the kernel covers.
- `analyze_sensitivity_case`, the fault mutants and the `duplicate_credit_fault` option: they exist to break the invariants.
- The historical two-warden checker: the step model subsumes it.
- Statistics of the searches beyond states checked and depth: transition counts, timings, digests and the texts of traces.
- Error messages, audit events, event logs and request ids: only the kind of an exception is kept.
- Signatures, message authentication codes and hashes: a signature is the signed payload, a code and a digest check are boolean inputs, and the digest is the byte stream it is fed.
- The service, storage and executor behind the delegation tree: each call is assumed to have its documented effect; whether an authorization succeeds is an input.
- A voucher accepted twice at a site, pending acknowledgements, snapshots and restores of a site; whether a restore has failed is an input.
- Lease and subject identifiers in the delegation tree: nodes are told apart as objects.
- The SQLite file of the durable counter: its two tables are a pair of integers and a map, and reopening an existing file is not modelled.
- Parsing of a peer's timestamp and of paths: a timestamp that does not parse is `None`, and a path is its normalised bytes.
- A property schema that is not an object, on which the source raises: properties are schemas.
- Negative warden indexes, which the source's lists would count from the end: wardens are natural numbers.
- Checkpoints are kept in the order taken; the source sorts the tuple, which changes nothing the statements mention.
- HTTP servers, deployment, reports, placement and bootstrap statistics.
