# Verified model of the credential, budget and evaluation cores

This Dafny project models the parts of the backend that keep state under concurrency or carry a
promise that is not obvious from one body, and proves those promises for every input, every run or
every reachable state. `dafny verify dfyconfig.toml` checks all of it. Nothing here executes the
Python program.

| file | what it models |
|---|---|
| `byok.dfy` | tenants, slots, sealed records, and each lifecycle operation as a decision on what it read |
| `byok_protocol.dfy` | any number of actors interleaving the steps of those operations on one store |
| `byok_serial.dfy` | the serial order that every such interleaving has |
| `byok_truth.dfy` | ownership, revisions and the meaning of a stored `valid` over all runs |
| `byok_effects.dfy` | what each operation leaves, answers and refuses, and what that means over runs |
| `byok_storage.dfy` | the in-memory store: get, compare-and-swap, cursor scan; the Redis script |
| `byok_calls.dfy` | how one call ends among others, and that it is a run of that interleaving |
| `byok_manager.dfy` | the lifecycle methods statement by statement, others changing the store at every wait |
| `byok_migrate.dfy` | re-encryption: one record, one batch, the loop over all batches |
| `budget.dfy`, `budget_runs.dfy`, `budget_lua.dfy` | reserve, finalize, settle; whole runs; the server-side scripts |
| `pricing.dfy`, `reconciler.dfy`, `ledger.dfy`, `service.dfy` | prices and savings, provider reports, the ledger, the service over ledger and budget |
| `billing.dfy` | what tokens cost, what reports say, what each saving is made of |
| `plan_graph.dfy` | the plan check with its depth-first cycle search |
| `ndcg.dfy`, `ndcg_meaning.dfy` | both NDCG computations and the retrieval score; what the metrics measure |
| `redaction.dfy` | exact-value redaction of nested values |
| `redaction_values.dfy` | what that redaction keeps |
| `redaction_exact.dfy` | exactly which credentials that redaction removes |
| `rate_limiter.dfy`, `rate_refill.dfy` | the token bucket: bounds from above with pruning; exactly what it gives back |
| `lease.dfy`, `lease_runs.dfy` | the authority lease; what its runs let through, in terms of the authority's replies |
| `circuit_breaker.dfy` | the circuit breaker |

Objects whose methods update fields are classes, proved against specification functions; the
properties over runs are proved about those functions. A run is any sequence of events: an event that
does not apply in a state changes nothing, so no order of events is excluded. Where other tasks may run
while a method waits, what they make of the store is an input that the method cannot influence: for a
lifecycle call any stores at all, for the migration any function that deletes nothing and writes only under
the current key. The contracts then fix the store and the result at the end as a function of that input.

What is taken as given:

- Sealing is ideal: a text opens only under its key and for its header, and to what was sealed.
  Hashing is injective, JSON and base64 are faithful. A tenant's name is either plain or `v1:` plus the
  digest of another name, because the old storage names can only meet the new ones that way.
- Provider answers, clock readings, nonces and fresh reservation ids are inputs.
- Provider names arrive lower-cased and stripped; two model names are compared after the same
  normalisation. Rates are non-negative and token counts are not negative where the record type refuses
  negative ones; counts in a provider's report can be anything.
- Costs are whole micro-dollars once the source has rounded to six digits, and exact reals before.
- The logarithm and the power of two of the NDCG formulas enter with what the proofs need: the
  logarithm of 2 is 1 and the logarithm does not fall; the power of 0 is 1 and the power rises.
- One clock serves wall and monotonic readings, and the timeout around the authority call is exact.

Findings, each with its proof:

- Concurrent credential operations are serial in the order of their commits exactly for sets of tenants in
  which none is named `v1:` plus the digest of another (`ByokProtocol.SerialExactlyWithoutAliases`): the
  old-name check of one such tenant reads the other's new slot. In some order that keeps each slot's own
  operations in theirs, every run of every set of tenants is serial (`ByokSerial.SomeOrderIsSerial`).
- The documentation calls the savings attribution non-overlapping. Its parts add up to baseline minus
  estimate exactly when four slacks are zero (`Attribution.ExactlyDisjoint`); a dearer selected model, a
  grown prompt, more cached tokens than were sent, or cache writes make it claim more.
- A provider report with a negative total leaves a ledger record without a charge
  (`Service.FinOpsService.RecordUpstreamInference`); a reused reservation, or another tenant's, makes
  ledger and counters differ (`ServiceRuns.DriftsExactlyWhenUnclean`).
- Pruning of idle buckets lets a key through that the bucket would have turned away, exactly when the
  capacity takes more than 120 seconds to refill (`RateLimiter.PruningUnobservableIff`). In exactly those
  configurations a window can also admit more than capacity plus refill (`RateLimiter.RateHoldsIff`); the
  bound then holds at capacity per 120 seconds instead (`RateLimiter.SlidingWindow`).
- Redaction does not remove every credential. Whatever other credentials a request uses, one is removed from
  every text exactly when it neither overlaps an end of the marker nor is part of it
  (`RedactionExact.SafeInAnyCompanyIff`). Redacted alone it may also overlap the left end, if the doubled
  beginning is matched earlier (`RedactionExact.CompleteAloneIff`). A tuple used as a dictionary key makes
  redaction raise (`Redaction.RedactSucceedsIff`).
- The upper clamp of the NDCG over documents cuts a quotient for two reasons only, each with its exact
  condition: documents that repeat among the first `k` (`Ndcg.CutExactlyWhenRepeated`), and a negative score
  among the `k` best while the ideal is still positive (`Ndcg.CutExactlyWhenNegative`). The NDCG over labels,
  which has no clamp, never exceeds 1; the retrieval score is refused exactly when its metrics sum to less than
  -0.0015 (`Ndcg.EvaluateRetrievalRelevance`).
- Under a negative dollar limit the reserve script words a refusal as a token refusal
  (`BudgetLua.ReserveAgrees`); it grants the same requests.

## Model

| member | source | states |
|---|---|---|
| Byok.SealThenOpen | backend/app/core/byok.py:129-187 | a sealed record opens to itself, its revision and its key id if and only if it is opened for the same tenant and provider by a manager that still holds the sealing key and has not retired it |
| Byok.OpenIsContent | backend/app/core/byok.py:147-187 | a stored text opens for one slot only, and every manager that can open it sees the same content |
| Byok.StripIsIdempotent | backend/app/core/byok.py:347-347 | stripping a credential twice is stripping it once, so the stored credential is the one that was asked about |
| Byok.StripTrims | backend/app/core/byok.py:347-347 | stripping takes away nothing but white space and leaves none at either end |
| ByokProtocol.SerialEquivalence | backend/app/core/byok.py:217-266 | for any number of actors and any interleaving of reads, old-name reads, provider calls and commits, the store ends as if the committed operations had run one after another in commit order with the same answers, provided no tenant is named after the digest of another |
| ByokProtocol.SerialExactlyWithoutAliases | backend/app/core/byok.py:117-120 | runs over a set of tenants are always serial in commit order if and only if the set holds no non-empty tenant together with the tenant named `v1:` plus its digest |
| ByokProtocol.AliasBreaksSerial | backend/app/core/byok.py:217-222 | two first stores by such a pair of tenants: both commit, and running them serially in commit order gives another outcome |
| ByokSerial.SomeOrderIsSerial | backend/app/core/byok.py:217-266 | after every run, of any tenants and from any store, some order of the committed operations, with those on any one slot in commit order, is serial: each alone with the store gives the same answer, and the store ends the same |
| ByokSerial.RunTracked | backend/app/core/byok.py:217-222 | in every run each committed operation replaces what the commits before it left in its slot, and a first store found the old name unused at some point between commits |
| ByokSerial.PlaceAll | backend/app/core/byok.py:117-120 | operations that each found the old name unused at some point can be put in one order, each slot's own kept, in which each finds it unused at its own turn |
| ByokSerial.PlacedIsSerial | backend/app/core/byok.py:252-266 | an order in which every operation finds what it found is a serial run with the same answers |
| ByokProtocol.OnlyCommitsWrite | backend/app/core/byok_storage.py:28-36 | a step whose compare-and-swap does not succeed (a conflict, a refusal, a read) leaves the store as it was; a successful one adds exactly one log entry |
| ByokProtocol.OldNameOnlyWhenEmpty | backend/app/core/byok.py:217-222 | whether the old name is occupied changes no decision when the slot itself holds a record |
| ByokProtocol.OldNameBlocks | backend/app/core/byok.py:217-222 | an empty slot under an occupied old name is never written, by any operation |
| ByokProtocol.OnlyStoreCreates | backend/app/core/byok.py:336-368 | a write to an empty slot is always a first store, with a tenant that is not empty |
| ByokTruth.DecideWritesWell | backend/app/core/byok.py:336-508 | every write over an existing record keeps the owner, raises the revision by one and is by an authorized actor; a fresh one starts at revision 1 with the storing actor as owner; only a delete removes |
| ByokTruth.OwnerNeverChanges | backend/app/core/byok.py:231-266 | over any stretch of any run in which a slot exists, its owner never changes and its revision rises by exactly the number of commits to it; an unreadable slot is never written |
| ByokTruth.CommitsAreByOwners | backend/app/core/byok.py:231-250 | every commit on an existing slot, in every run, is by its owner, or names nobody, or is delegated, or is the migration |
| ByokTruth.ValidMeansAccepted | backend/app/core/byok.py:287-421 | in every run a stored `valid` says the provider accepted exactly the credential stored beside it, whatever rotation races whatever validation |
| ByokTruth.AcceptedNeedsAnAnswer | backend/app/core/byok.py:322-334 | a credential counts as accepted only after an accepting provider answer in the run to the question about exactly that credential |
| ByokEffects.OpensExactlySeals | backend/app/core/byok.py:129-187 | a stored text opens, to this record, revision and key id, if and only if it is a seal of them for this very slot under a key the manager still holds |
| ByokEffects.DecideLeaves | backend/app/core/byok.py:336-547 | what a committed operation leaves and answers: a store or rotation an active, stripped credential, validated as asked, with owner and creation kept; a validation nothing but its verdict; a revocation nothing but `revoked` and the time; a delete nothing; a migration the same record under the current key; the answer shows the state and never the key |
| ByokEffects.LastCommitDecides | backend/app/core/byok.py:252-266 | after every run each slot holds what its last committed operation means, and what it held at first if there was none |
| ByokEffects.RevokedStaysRevoked | backend/app/core/byok.py:397-437 | over any stretch of any run a revoked credential stays revoked and is never validated until somebody stores, rotates or deletes, whatever races it |
| ByokEffects.WritesExactlyWhenItMay | backend/app/core/byok.py:336-547 | an operation decides to write if and only if its record is there, opens for it and may be touched by its actor, and what it brings is fit; so an owner's revocation is never turned down |
| ByokEffects.RefusedBecause | backend/app/core/byok.py:217-250 | every refusal says what is so: each error code names its cause |
| ByokEffects.AnsweredWithoutWrite | backend/app/core/byok.py:490-531 | the answers without a write are that there is nothing to delete, nothing to migrate, or that a record is already under the current key |
| ByokEffects.CallMeans | backend/app/core/byok.py:252-266 | what a call's result tells its caller, whatever others do at its waits: success means that the slot was as read and holds what the operation means, with nothing else changed; a conflict means exactly that it was due and the slot had changed |
| ByokStorage.MemoryStore.Get | backend/app/core/byok_storage.py:25-26 | the stored text, or nothing |
| ByokStorage.MemoryStore.Cas | backend/app/core/byok_storage.py:28-36 | succeeds if and only if the slot holds what was expected, and then replaces exactly that slot; otherwise nothing changes |
| ByokStorage.MemoryStore.SortedNames | backend/app/core/byok_storage.py:39-39 | the names in strictly rising order, each once, all of them |
| ByokStorage.MemoryStore.Scan | backend/app/core/byok_storage.py:38-42 | the page holds exactly the names whose rank lies between the cursor and the cursor plus the count; the next cursor is 0 exactly when the names are exhausted |
| ByokStorage.IndexIsRank | backend/app/core/byok_storage.py:39-42 | in the sorted list a name stands at the index that counts the smaller names |
| ByokStorage.RankGrows | backend/app/core/byok_storage.py:38-42 | adding names never moves a name towards the front |
| ByokStorage.RedisCasIsCas | backend/app/core/byok_storage.py:48-56 | the server-side script does exactly the locked step, whatever text stands for an absent one |
| ByokCalls.CallIsRun | backend/app/core/byok.py:217-266 | the outcome of a call is that of its begin, read, old-name, ask and commit steps in the interleaving with any steps of others in between: same store and answer where it writes, no effect where it does not |
| ByokCalls.CallsAreSerial | backend/app/core/byok.py:336-508 | at the end of a call, whatever ran before and beside it, the store is that of all committed calls one after another, and a call that wrote is the last of them |
| ByokManager.BYOKManager.GetRawVal | backend/app/core/byok.py:217-222 | answers with what the slot holds when the wait for it is over, or raises for an occupied old name if, and only if, the slot was empty; leaves the store as others left it |
| ByokManager.BYOKManager.LoadRecord | backend/app/core/byok.py:242-250 | returns or raises exactly what `Byok.Load` says of the store at the two reads |
| ByokManager.BYOKManager.CommitRecord | backend/app/core/byok.py:252-266 | one atomic swap on the store as others left it: writes the sealed record if and only if the slot still holds what was read, else reports a conflict and changes nothing |
| ByokManager.BYOKManager.Validate | backend/app/core/byok.py:322-334 | the validation fields or error, from the provider answer; it waits exactly when the provider is asked |
| ByokManager.BYOKManager.ValidateKey | backend/app/core/byok.py:287-320 | a credential of the wrong length is turned down without a wait, any other by the answer |
| ByokManager.BYOKManager.StoreKey | backend/app/core/byok.py:336-368 | whatever others make of the store during each wait, ends with the store, the result and the number of writes that `ByokCalls.Outcome` gives |
| ByokManager.BYOKManager.RotateKey | backend/app/core/byok.py:370-395 | the same for rotation |
| ByokManager.BYOKManager.ValidateStoredKey | backend/app/core/byok.py:397-421 | the same for validation of the stored key |
| ByokManager.BYOKManager.RevokeKey | backend/app/core/byok.py:423-437 | the same for revocation |
| ByokManager.BYOKManager.DeleteKey | backend/app/core/byok.py:490-508 | the same for deletion, a missing record answering "nothing deleted" |
| ByokMigrate.ReencryptKeepsContent | backend/app/core/byok.py:527-542 | re-encryption changes the sealing key and raises the revision by one, and nothing that was sealed |
| ByokMigrate.RetirementIsSafe | backend/app/core/byok.py:122-187 | once every record is under the current key, the manager that has retired all previous keys opens every slot exactly as before |
| ByokMigrate.PrefixSurvives | backend/app/core/byok_storage.py:38-42 | records inserted during a pass never disturb the part of the names already dealt with |
| ByokMigrate.CleanPage | backend/app/core/byok_storage.py:38-42 | a page that has been dealt with extends the finished prefix; one that reaches the end leaves no record behind |
| ByokMigrate.DeleteCanSkip | backend/app/core/byok_storage.py:38-42 | after a delete the finished prefix can reach a record that was never dealt with, so the condition that nothing is deleted is needed |
| ByokMigrate.LeftAloneIsKept | backend/app/core/byok.py:510-548 | a slot that others leave alone at every wait still holds a text that opens to the same record |
| ByokMigrate.AfterCleanPass | backend/app/core/byok.py:122-127 | after a pass that leaves every record current, the manager without previous keys opens every slot that others left alone to the record it held before |
| ByokMigrate.WriterIsCurrent | backend/app/core/byok.py:336-508 | whatever a lifecycle operation of a manager with the same current key writes is a current record |
| ByokMigrate.WriterRunPasses | backend/app/core/byok.py:336-508 | any run of lifecycle operations without deletes, by such managers, is something others may do during a wait of the migration |
| ByokMigrate.ReencryptIsACall | backend/app/core/byok.py:522-547 | dealing with one record ends as the re-encryption operation of the interleaving does |
| ByokMigrate.Migrator.ReencryptOne | backend/app/core/byok.py:522-547 | whatever others make of the store at its waits, one record ends with the store, result and write count of the specification, after exactly the waits it has |
| ByokMigrate.Migrator.ReencryptPage | backend/app/core/byok.py:522-548 | the loop over a page: the report is the tally of one outcome per name; without errors and conflicts every listed record is current; between the waits every record is kept, so only others change any |
| ByokMigrate.CleanMeansNoError | backend/app/core/byok.py:522-548 | a report is clean exactly when no record of its page ended in a conflict or an error |
| ByokMigrate.ReportCounts | backend/app/core/byok.py:522-548 | the report counts the endings of its page: migrations, current records, conflicts, and each error under its code |
| ByokMigrate.Migrator.ReencryptBatch | backend/app/core/byok.py:510-548 | a clean batch that starts where the finished prefix ends extends it to the next cursor, and finishes the store when that cursor is 0; only others change any record |
| ByokMigrate.Migrator.Migrate | backend/app/core/byok_migrate.py:15-25 | the loop ends; it returns 0 exactly when every batch was clean; only others ever change a record; started at 0 and returning 0, it leaves every record under the current key, and the manager without previous keys opens every slot others left alone to its record from before |
| Budget.FinOpsBudgetManager.ReserveBudget | backend/app/finops/budget.py:309-328 | the locked reservation, refusals included, as the specification `Budget.Reserve` |
| Budget.FinOpsBudgetManager.FinalizeReservation | backend/app/finops/budget.py:359-397 | the locked finalization with its marker and clamps, as `Budget.Finalize` |
| Budget.FinOpsBudgetManager.SettleRequest | backend/app/finops/budget.py:452-477 | unreserved settlement, as `Budget.Settle` |
| Budget.FinOpsBudgetManager.ConfigureBudget | backend/app/finops/budget.py:524-533 | setting limits, as `Budget.SetBudget` |
| BudgetRuns.Conservation | backend/app/finops/budget.py:309-397 | after every run of reserve, finalize (also repeated), settle and limit changes, each tenant and month has used exactly its finalized actuals plus outstanding reservations plus settlements |
| BudgetRuns.RunConserves | backend/app/finops/budget.py:309-397 | the same from any state in which the books agree with the charges |
| BudgetRuns.OpenWorld | backend/app/finops/budget.py:312-328 | books with any counters that are not negative are such a state |
| BudgetRuns.ClampIsIdle | backend/app/finops/budget.py:390-393 | on genuine reservations the clamp at zero never changes a value |
| BudgetRuns.FinalizeIsIdle | backend/app/finops/budget.py:384-384 | finalizing a second time, or with a refused amount, changes nothing |
| BudgetRuns.NoOversubscription | backend/app/finops/budget.py:312-328 | usage never exceeds the highest limit ever in force by more than what finalized reservations used beyond their estimate plus unreserved settlements; the same for dollars while a dollar limit exists |
| BudgetRuns.QuotaHolds | backend/app/finops/budget.py:312-318 | with a quota that is never lowered, the bound is the quota now in force |
| BudgetRuns.LimitsInForce | backend/app/finops/budget.py:514-533 | after every run the limits in force are the ones configured last |
| BudgetRuns.GrantedExactlyWhenItFits | backend/app/finops/budget.py:309-328 | after every run a reservation is granted if and only if it fits, beside what open reservations hold and closed ones and settlements cost, under the limits configured last; a refusal names the usage and the limit |
| BudgetRuns.TotalsAreUsage | backend/app/finops/budget.py:384-477 | finalizing and settling report the account's usage afterwards and refuse only negative amounts |
| BudgetLua.ReserveAgrees | backend/app/finops/budget.py:33-55 | the reserve script grants the same requests as the locked section and keeps the same counters; the refusals differ exactly when the dollar limit is negative |
| BudgetLua.FinalizeAgrees | backend/app/finops/budget.py:61-68 | the finalize script, which has no clamp, reaches the same counters and markers |
| BudgetLua.ScriptsRefineLocks | backend/app/finops/budget.py:33-68 | from any state in which the books agree with the charges both forms stay in step over every run: limits, counters, markers and open reservations |
| BudgetLua.EqualCountersStayEqual | backend/app/finops/budget.py:33-68 | in particular from equal limits and equal counters that are not negative |
| Service.FinOpsService.RecordCacheHit | backend/app/finops/service.py:60-114 | a cache hit enters the ledger once, bills zero and touches no counter |
| Service.FinOpsService.RecordUpstreamInference | backend/app/finops/service.py:116-251 | an inference enters the ledger once and is charged once, to its reservation or outright; a negative provider total raises after the ledger entry is made |
| ServiceRuns.DriftsExactlyWhenUnclean | backend/app/finops/service.py:228-249 | ledger and counters move together for every tenant if and only if the recording bills no negative count and uses an open reservation of its own tenant, or bills nothing |
| ServiceRuns.UpstreamDrift | backend/app/finops/service.py:228-249 | one recording moves the gap between counters and ledger up for the tenant it charges and down for the tenant it names |
| ServiceRuns.ChargeIsTheService | backend/app/finops/service.py:228-249 | what a run charges for a recording is what the service charges: its reservation finalized if it has one, else a settlement |
| ServiceRuns.LedgerAndBudgetAgree | backend/app/finops/service.py:60-251 | over every clean run a tenant's usage over all months is its full ledger history of billed tokens plus its outstanding reservations, and the same in micro-dollars |
| Ledger.RecordKeeps | backend/app/finops/ledger.py:46-56 | recording keeps, for every tenant, the newest part of exactly that tenant's history |
| Ledger.FinOpsLedger.Record | backend/app/finops/ledger.py:46-56 | appends to the history and drops the oldest entry past the bound |
| Ledger.FinOpsLedger.GetRecords | backend/app/finops/ledger.py:58-78 | of one month or of all: entry `i` of a page is number `offset + i`, counted back, of the wanted records among those kept of the tenant's own history |
| Ledger.InMonthElements | backend/app/finops/ledger.py:67-74 | exactly the records of the month are left |
| Ledger.FinOpsLedger.FilterMonth | backend/app/finops/ledger.py:67-74 | the comprehension keeps them in order |
| Ledger.PageOfLastN | backend/app/finops/ledger.py:76-78 | without a month, a page of the bounded list is a page of everything ever recorded, as far as it is kept |
| Reconciler.ReportIsNonNegative | backend/app/finops/reconciler.py:77-118 | a report of non-negative counts gives a non-negative total; the billed cost is never negative |
| Reconciler.ReportWins | backend/app/finops/reconciler.py:71-111 | reported counts, zero included, make the local assumptions irrelevant |
| Reconciler.ShapesAgree | backend/app/finops/reconciler.py:83-111 | totals and telemetry reports of the same usage reconcile to the same result |
| Billing.ConfirmedPlanBillsTheEstimate | backend/app/finops/reconciler.py:77-121 | a report that confirms the local plan bills exactly the local estimate, with no variance in cost, and totals what was sent and received |
| Billing.ReportedTotalIsTheTotal | backend/app/finops/reconciler.py:103-105 | whatever else it says, a reported total is the total |
| Billing.PromptLessCached | backend/app/finops/reconciler.py:83-96 | of a reported prompt what is not cached is paid at the input rate, and more cached tokens than prompt leave nothing to pay there |
| Billing.EmptyReportSaysNothing | backend/app/finops/reconciler.py:56-67 | no report, or an empty one, establishes nothing |
| Billing.FirstNameWins | backend/app/finops/reconciler.py:77-111 | a count may come under either of its names, and under both the first one counts |
| Billing.PromptBeforeInput | backend/app/finops/reconciler.py:86-96 | the same for prompt and input counts, where a prompt count of 0 gives way |
| Billing.CostIsTheSum | backend/app/finops/pricing.py:37-53 | the billed cost is the reported counts at their four rates, up to half a micro-dollar |
| Billing.EachTokenCostsItsRate | backend/app/finops/pricing.py:37-53 | one more reported token of a kind costs that kind's rate, up to one micro-dollar |
| Billing.ConfirmationChangesNothing | backend/app/finops/service.py:144-178 | a confirming report charges and saves exactly what the plan does without a report |
| Billing.ReportIsCharged | backend/app/finops/service.py:154-178 | what a provider reports is what is charged, in tokens and in cost, whatever the plan was |
| Billing.SavingCompletesTheBaseline | backend/app/finops/service.py:138-178 | the saving on record is what the effective cost leaves of the requested model's price for the whole prompt, never below zero |
| Billing.HitSavesItsBaseline | backend/app/finops/service.py:60-114 | a response from the cache saves its whole baseline, attributed to the cache alone |
| Attribution.ComponentsIdentity | backend/app/finops/attribution.py:74-103 | routing plus physical plus provider-cache savings equal baseline minus estimate plus four non-negative slacks |
| Billing.PhysicalIsForPruning | backend/app/finops/attribution.py:86-87 | the pruning part is the price of the pruned tokens on their way in, and 0 where none was pruned |
| Billing.RoutingIsForTheCheaperModel | backend/app/finops/attribution.py:74-83 | the routing part is the difference of the two models' prices for the same tokens, 0 for one model or a dearer one |
| Billing.CacheIsForCachedTokens | backend/app/finops/attribution.py:89-94 | the provider-cache part is what cached tokens would have cost uncached, less what writing costs above the input price, and 0 without either |
| Billing.RetriesAreWhatTheyCost | backend/app/finops/attribution.py:96-97 | the retries part is their cost, not below 0, to the micro-dollar |
| Attribution.ExactlyDisjoint | backend/app/finops/attribution.py:32-54 | the parts do not count twice if and only if all four slacks are zero |
| Attribution.RoundedComponents | backend/app/finops/attribution.py:74-103 | the rounded parts miss the rounded baseline minus estimate plus slack by at most 2.5 micro-dollars |
| Attribution.TotalsAgree | backend/app/finops/service.py:177-195 | without slack, retries and provider usage the attributed total and the recorded savings differ by at most two micro-dollars |
| Attribution.TotalsCanDifferByTwo | backend/app/finops/service.py:177-195 | an inference where they differ by two |
| Attribution.TotalIsSumOfParts | backend/app/finops/models.py:76-93 | the total is the sum of the parts, never below zero, on hits and misses; the record's own check never changes it |
| PlanGraph.CycleSearch.Dfs | backend/app/evals/agent_evaluator.py:157-167 | the recursion ends; it reports a cycle only if there is one, and otherwise leaves the node off every cycle and the stack as it was |
| PlanGraph.FindCycle | backend/app/evals/agent_evaluator.py:150-172 | for every plan, dangling dependencies included, and every order of the steps: a cycle is reported if and only if some node reaches itself by at least one dependency |
| PlanGraph.LeavingIsSafe | backend/app/evals/agent_evaluator.py:160-167 | a node all of whose dependencies lie off every cycle lies off every cycle |
| PlanGraph.AcyclicIffOrderable | backend/app/evals/agent_evaluator.py:150-176 | there is no cycle if and only if the steps can be executed in an order that respects all dependencies |
| PlanGraph.RootExists | backend/app/evals/agent_evaluator.py:178-182 | a non-empty plan with valid dependencies and no cycle has a step without dependencies |
| PlanGraph.EvaluatePlanStructure | backend/app/evals/agent_evaluator.py:133-215 | the four criteria mean what they say and the score is the share of them that is met; a passed plan is executable; the root criterion can only fail alone on the empty plan |
| PlanGraph.CoherentMeans | backend/app/evals/agent_evaluator.py:184-203 | with several steps to start from and others besides, the last step is coherent exactly if it is at most two dependencies away from each of them |
| Ndcg.ComputeDcg | backend/app/evals/rag_evaluator.py:298-306 | the loop computes the sum weighted by the logarithmic discount, for negative bounds too |
| Ndcg.ListDcgAtMostIdeal | backend/app/evals/rag_evaluator.py:309-313 | for every list of labels and every bound, the DCG is at most that of the sorted list |
| Ndcg.ComputeNdcg | backend/app/evals/rag_evaluator.py:309-316 | never above 1 without a clamp; the last alternative is unreachable; 1 for a list in ideal order, not negative for non-negative labels |
| Ndcg.ComputeMrr | backend/app/evals/rag_evaluator.py:290-295 | one over the rank of the first relevant label, else 0 |
| Ndcg.ComputePrecisionAtK | backend/app/evals/rag_evaluator.py:319-325 | the relevant share of the first `k`, between 0 and 1 |
| Ndcg.EvaluateRetrievalRelevance | backend/app/evals/rag_evaluator.py:328-370 | the three metrics and the rounded mean of the labels; refused exactly when the sum of the metrics is below -0.0015, so never for non-negative labels; the verdict is the three thresholds |
| Ndcg.NegativeLabelsAreRefused | backend/app/evals/rag_evaluator.py:358-363 | a list with a negative label whose score falls below 0 |
| NdcgMeaning.OneResultIsWorth | backend/app/evals/rag_evaluator.py:298-306 | one result among irrelevant ones is worth its label over the logarithm of its rank plus one, and nothing beyond `k` |
| NdcgMeaning.ResultsAddUp | backend/app/evals/rag_evaluator.py:298-306 | the DCG of a sum of labels is the sum of the DCGs, so the worth of one result determines it |
| NdcgMeaning.NormalisedIsTheShare | backend/app/evals/rag_evaluator.py:309-316 | the NDCG times the ideal DCG is the DCG |
| NdcgMeaning.RankIsOfTheFirst | backend/app/evals/rag_evaluator.py:290-295 | the reciprocal rank is one over the rank of the first relevant result |
| NdcgMeaning.ShareCounts | backend/app/evals/rag_evaluator.py:319-325 | the precision times `k` is the number of relevant results among the first `k` |
| NdcgMeaning.ScoreIsTheMean | backend/app/evals/rag_evaluator.py:357-368 | the score is the mean of the three metrics to three digits |
| Ndcg.FirstOnesAreLargest | backend/app/evals/retrieval_metrics.py:96-97 | any choice of elements of a descending list sums to at most its first ones |
| Ndcg.DominanceIsWeighted | backend/app/evals/retrieval_metrics.py:98-102 | a lead in every prefix sum is a lead in the sum with falling weights |
| Ndcg.GainsSort | backend/app/evals/retrieval_metrics.py:96-100 | ordering by score is ordering by gain |
| NdcgMeaning.OneDocumentIsWorth | backend/app/evals/retrieval_metrics.py:73-85 | one document with a score among others without is worth two to its score, less one, over the logarithm of its rank plus one |
| Ndcg.DocDcgAtMostIdeal | backend/app/evals/retrieval_metrics.py:88-102 | for distinct retrieved documents, and no negative score among the `k` best, the DCG at `k` is at most the ideal one |
| Ndcg.WithinOneExactlyWhenDistinct | backend/app/evals/retrieval_metrics.py:88-107 | for given documents the DCG stays within the ideal for all scores without a negative one among the `k` best if and only if the first `k` documents are distinct |
| Ndcg.NegativeScoreExceeds | backend/app/evals/retrieval_metrics.py:88-107 | with a negative score among the `k` best, the documents before it earn more than the ideal |
| Ndcg.WithinOneExactlyWhenIdealNonNegative | backend/app/evals/retrieval_metrics.py:88-107 | for given scores the DCG stays within the ideal for all distinct documents if and only if none of the `k` best scores is negative |
| Ndcg.CutExactlyWhenRepeated | backend/app/evals/retrieval_metrics.py:88-107 | for given documents, some scores without a negative one among the `k` best make the quotient exceed 1 if and only if a document repeats among the first `k` |
| Ndcg.CutExactlyWhenNegative | backend/app/evals/retrieval_metrics.py:88-107 | for given scores, some distinct documents make the quotient exceed 1 if and only if one of the `k` best scores is negative and the ideal DCG is positive |
| Ndcg.ComputeDcgAtK | backend/app/evals/retrieval_metrics.py:73-85 | the loop computes the discounted sum of the documents' gains |
| Ndcg.ComputeNdcgAtK | backend/app/evals/retrieval_metrics.py:88-107 | always between 0 and 1, with every early return; for distinct documents and no negative score among the `k` best the upper clamp is idle |
| Redaction.SplitThenJoin | backend/app/core/credential_redaction.py:33-34 | the text is its pieces between matches joined with the credential |
| Redaction.ReplaceRejoins | backend/app/core/credential_redaction.py:33-34 | replacing joins the same pieces with the marker, so nothing else changes |
| Redaction.ReplaceRemoves | backend/app/core/credential_redaction.py:33-34 | a credential that overlaps no end of the marker and is no part of it is gone after its replacement |
| Redaction.ReplaceCreatesNothing | backend/app/core/credential_redaction.py:33-34 | a replacement brings no such credential into being |
| Redaction.AbsentStaysAbsent | backend/app/core/credential_redaction.py:33-34 | later replacements never bring an earlier credential back |
| Redaction.RedactTextRemoves | backend/app/core/credential_redaction.py:32-35 | such a credential is gone from the redacted text, whatever the other credentials are |
| Redaction.RedactString | backend/app/core/credential_redaction.py:32-35 | the loop, longest credential first, computes the specified redaction |
| RedactionExact.CompleteExactlyWhenHarmless | backend/app/core/credential_redaction.py:33-34 | for credentials that overlap no end of the marker, none survives in any text if and only if none is part of the marker |
| Redaction.BracketFreeIsOnlyInside | backend/app/core/credential_redaction.py:33-34 | credentials without brackets are of this kind, and are part of the marker exactly when they are part of its inner text |
| RedactionExact.PartOfMarkerSurvives | backend/app/core/credential_redaction.py:33-34 | a credential that is part of the marker survives in some text, whatever the other credentials are |
| RedactionExact.SafeInAnyCompanyIff | backend/app/core/credential_redaction.py:32-35 | a credential survives in no text, whatever the other credentials are, if and only if it overlaps no end of the marker and is no part of it (for credentials that leave some character outside themselves and the marker) |
| RedactionExact.OverlapComesBack | backend/app/core/credential_redaction.py:32-35 | for every credential over an end of the marker, the text and the one-character credential beside it with which it comes back |
| RedactionExact.CompleteAloneIff | backend/app/core/credential_redaction.py:32-35 | a credential redacted alone survives in no text if and only if it is no part of the marker, overlaps no right end of it, and at every overlap with the left end occurs earlier in its own doubled beginning |
| RedactionExact.ReplaceAtFirst | backend/app/core/credential_redaction.py:33-34 | the text before the first match is copied, then comes the marker, then the replacement of the rest |
| RedactionExact.BracketCanComeBack | backend/app/core/credential_redaction.py:33-34 | a credential with a bracket that is completed again by the marker |
| Redaction.RedactTextIsIdempotent | backend/app/core/credential_redaction.py:32-35 | for such credentials, redacting a redacted text changes nothing |
| Redaction.RedactIsComplete | backend/app/core/credential_redaction.py:25-35 | an active credential that overlaps no end of the marker and is no part of it is in no key and no string of the redacted nested value, whatever the other credentials are |
| RedactionValues.FreeValuesAreKept | backend/app/core/credential_redaction.py:25-35 | a value that holds no active credential, with plain and distinct keys, comes back as it was, atoms and order included, only with tuples as lists and exceptions as text |
| RedactionValues.DictKeepsLastValues | backend/app/core/credential_redaction.py:26-27 | the keys of a redacted dictionary are exactly the redactions of its keys, each once, and each carries the redaction of the value of the last item with it |
| RedactionValues.DictKeepsOrder | backend/app/core/credential_redaction.py:26-27 | they stand in the order in which they occur first |
| Redaction.RedactSucceedsIff | backend/app/core/credential_redaction.py:26-29 | redaction fails exactly on values with a container as a dictionary key, which a tuple key becomes |
| Redaction.CredentialContext.Protect | backend/app/core/credential_redaction.py:19-22 | adds a non-empty credential once, keeps the earlier ones in order and returns it |
| RateLimiter.TokenBucketRateLimiter.PruneMemoryStore | backend/app/core/rate_limiter.py:77-87 | above a thousand buckets, removes exactly those untouched for more than 120 seconds |
| RateLimiter.TokenBucketRateLimiter.CheckInMemory | backend/app/core/rate_limiter.py:89-106 | prune, refill, consume, as the specification, with the wait rounded to two digits; a denied request writes nothing back |
| RateLimiter.SlidingWindow | backend/app/core/rate_limiter.py:89-106 | between any two requests of any run a key is allowed at most capacity plus pace times elapsed time, for every pace at least the refill rate and at least capacity per 120 seconds |
| RateLimiter.SlidingWindowAtRate | backend/app/core/rate_limiter.py:89-106 | where a bucket refills within 120 seconds, that pace is the refill rate |
| RateRefill.DeniedOnlyWhenUsedUp | backend/app/core/rate_limiter.py:89-106 | the converse: in every run from an empty limiter a request is turned away only if, since some earlier request for its key, the allowed ones and itself are more than the capacity and what has flown in |
| RateRefill.AllowedExactlyWhenNotUsedUp | backend/app/core/rate_limiter.py:89-106 | where a bucket refills within 120 seconds the limiter is exactly that count: a request is allowed if and only if no earlier request of its key makes it too many |
| RateRefill.WaitIsEnough | backend/app/core/rate_limiter.py:105-106 | a key that was turned away and comes back, untouched meanwhile, when the quoted wait and its rounding are over is allowed |
| RateRefill.WaitIsDue | backend/app/core/rate_limiter.py:105-106 | before that, less the rounding, it is turned away again, where buckets refill in time |
| RateRefill.RemainingIsExact | backend/app/core/rate_limiter.py:100-103 | the remaining count is how many more requests are allowed at once, and the next one is not |
| RateRefill.DeniedHasNothingLeft | backend/app/core/rate_limiter.py:105-106 | a key that is turned away is told that nothing is left |
| RateRefill.RaisedExactlyWithoutRefill | backend/app/core/rate_limiter.py:105-105 | the division by a refill rate of zero is reached exactly by the requests that are not allowed |
| RateLimiter.RateHoldsIff | backend/app/core/rate_limiter.py:89-106 | every window of every run, from an empty limiter or from any store, is bounded by capacity plus refill if and only if a bucket refills within 120 seconds |
| RateLimiter.ForgottenKeyExceeds | backend/app/core/rate_limiter.py:77-106 | with a slower refill, a run from an empty limiter in which a key spends its whole bucket twice within a rest too short to refill it |
| RateLimiter.FillFills | backend/app/core/rate_limiter.py:77-106 | any number of keys with spent buckets is a store that requests really reach, with and without pruning |
| RateLimiter.PruningUnobservableIff | backend/app/core/rate_limiter.py:77-106 | the limiter answers every run, from empty or from any sane store, as one that never forgets if and only if a bucket refills within 120 seconds |
| RateLimiter.SlowRefillIsObserved | backend/app/core/rate_limiter.py:77-106 | with a slower refill, a run from an empty limiter in which one request after a rest tells the two apart |
| RateRefill.FewKeysAreKept | backend/app/core/rate_limiter.py:77-87 | a run over at most a thousand keys is answered as by a limiter that never forgets, whatever the capacity and the rate |
| Lease.AuthorityLease.Begin | backend/app/core/identity_state.py:157-178 | `check` up to its wait, as the specification |
| Lease.AuthorityLease.Finish | backend/app/core/identity_state.py:179-186 | `check` from its wait on, as the specification |
| Lease.DenialIsAbsorbing | backend/app/core/identity_state.py:157-186 | after a denial no check on the lease returns normally, waiting ones included |
| Lease.InitialForcedCheck | backend/app/core/identity_state.py:178-186 | the forced check that opens a request establishes what the next bound rests on |
| Lease.BoundedStaleness | backend/app/core/route_policy.py:216-231 | in any interleaving of sender, poller and others, every check that returns normally at time t has a good reply behind it judged after t - (10 + T) about a look after t - (10 + T + 5) |
| Lease.PositiveExactlyWhenGood | backend/app/core/identity_state.py:91-128 | a reply lets a check return if and only if it is proper, 200, about this identity, active, looked up within the last 5 seconds (1 ahead) and cached for at most 15; only a plain 401 says that the credential is inactive |
| LeaseRuns.EveryReturnIsAnswered | backend/app/core/route_policy.py:216-231 | from the forced check that opens a request on, every message let through at time t has an event of the request behind it that brought such a reply, within the bounds above |
| LeaseRuns.RevocationTakesEffect | backend/app/core/route_policy.py:216-231 | if from some time on every reply says inactive, or another identity, or is no 200, nothing passes 10 + T seconds after that time or later |
| LeaseRuns.ReturnsAreValid | backend/app/core/identity_state.py:157-178 | every message belongs to a check that began at most T seconds earlier, when the signing key was unchanged and the credential neither expired nor too new |
| LeaseRuns.CheckAnswers | backend/app/core/identity_state.py:157-186 | a forced check of a valid credential answered in time returns exactly if the reply is good, and otherwise denies for good with the matching error |
| LeaseRuns.RecentCheckReturns | backend/app/core/identity_state.py:178-178 | an unforced check returns at once while the last answer is less than ten seconds old, and asks otherwise |
| LeaseRuns.InvalidIsDenied | backend/app/core/identity_state.py:161-177 | outside the credential's validity every check denies for good |
| CircuitBreaker.Circuit.Available | backend/app/core/circuit_breaker.py:52-62 | the availability check, as the specification |
| CircuitBreaker.Circuit.Success | backend/app/core/circuit_breaker.py:64-74 | a recorded success, as the specification |
| CircuitBreaker.Circuit.Failure | backend/app/core/circuit_breaker.py:76-85 | a recorded failure, as the specification |
| CircuitBreaker.CountsAlwaysMatch | backend/app/core/circuit_breaker.py:52-85 | in every run the circuit is closed if and only if the failure count is below the threshold |
| CircuitBreaker.OpenSinceLastFailure | backend/app/core/circuit_breaker.py:76-85 | while open, the timeout runs from the last recorded failure |
| CircuitBreaker.HalfOpenCounts | backend/app/core/circuit_breaker.py:52-74 | while half open, the counted successes are exactly those since the recovery check, and there was no failure |
| CircuitBreaker.ClosesOnlyAfterRecovery | backend/app/core/circuit_breaker.py:52-85 | the circuit closes only after a full timeout since the last failure, a check, and exactly the required successes with no failure between, late results included |
| CircuitBreaker.RefusedExactlyWhileCoolingDown | backend/app/core/circuit_breaker.py:52-62 | a call is turned away exactly while the circuit is open and the timeout since its last failure has not passed |
| CircuitBreaker.ClosedCountsFailures | backend/app/core/circuit_breaker.py:64-85 | while closed the count is the failures since the last success |
| CircuitBreaker.OpensExactlyAtThreshold | backend/app/core/circuit_breaker.py:76-85 | a closed circuit opens exactly at the failure that completes the threshold with no success between |
| CircuitBreaker.RecoveryCloses | backend/app/core/circuit_breaker.py:52-74 | after the check that ends the timeout, and while nothing fails, the circuit is half open until the required successes are in and closed from then on |
| CircuitBreaker.FailureReopens | backend/app/core/circuit_breaker.py:76-85 | any failure while half open opens it again |
| CircuitBreaker.StaysOpen | backend/app/core/circuit_breaker.py:52-85 | an open circuit leaves that state exactly by a check a full timeout after its last failure |

## Left out

- `list_keys`, `get_decrypted_key`, `encrypt_key`, `decrypt_key` and `_save_raw_val`: reads and one-line wrappers of the modelled steps.
- Storage outages, a lost reply after a committed swap, durability settings of Redis, and Redis SCAN's own cursor order.
- Redis-to-memory fallback in the middle of a run and the 24-hour expiry of the finalize marker: one working store per run.
- `check_budget`, warning thresholds, status and savings counters: readings without influence on the counters.
- BudgetLua.ScriptsRefineLocks: the scripts' increments are exact, so the floating drift of `INCRBYFLOAT` is not modelled.
- Ledger summaries, reports and metadata sanitising; of a record's timestamp only its month.
- Percentages, anomaly flags and status texts of the reconciler; the price catalogue itself.
- The rate limiter's Redis script: the in-memory form is the one with the pruning question.
- LeaseRuns.EveryReturnIsAnswered: the poller's and the sender's calls are events; the middleware around them (routing, cancellation, error responses) is not modelled.
- Parsing of the authority's response: a reply is described by what the checks ask of it.
- The circuit breaker's fallback chain and its counter.
- Other evaluators: goal interpretation, agent and tool selection, grounding and the remaining text scores are keyword heuristics.
- RedactionExact.CompleteExactlyWhenHarmless: for a fixed list of several credentials of which some overlap an end of the marker, whether these can come back depends on how all of them overlap each other; decided are one credential alone and one in any company.
- Redaction.RedactIsComplete: an exception is its text, and values that are no text, list, tuple or dictionary are left as they are.
- IEEE arithmetic throughout: sums, products and rounding are exact.
- Set-based precision, recall and reciprocal rank of `retrieval_metrics.py`, and its batch averages: single expressions.
