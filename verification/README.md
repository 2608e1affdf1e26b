# Verification of the bounded LLM router

A Dafny model of the deterministic core of the router in `router/backend/buildbox_router`, with proofs
about every input, every run and every interleaving. `dafny verify dfyconfig.toml` checks it all.

The modules follow the components:

- `SseDecoder`, `SseFormat`, `TargetStream`, `TargetRules`, `StreamDelivery`, `StreamRules`, `StreamFallback`,
  `StreamPath`, `PathRules`: from the bytes of a provider to what a client of a stream may see. The decoder handles `data` and comment lines ended by LF or CRLF, a part of sections
  9.2.5 and 9.2.6 of the WHATWG HTML Living Standard.
- `AttemptEngine`, `BudgetLedger`, `LedgerRules`, `Accounting`, `AccountingRules`, `SpendEnvelope`: what an attempt may cost, the loop of
  fallbacks and repairs, the ledger, the loop on the ledger, and the nesting of the caps from attempt to
  comparison.
- `DependencyGraph`, `Planner`, `WorstCase`, `RoutingPlan`, `Forecast`, `ForecastLimits`, `PolicyCompiler`, `Runner`,
  `CompiledRun`, `RunEnds`: from a plan to an executable policy to its run, frontier by frontier, what the
  plan's forecast says about it, and what each stage is handed.
- `RuntimeQueue`, `RuntimeRules`, `PlanningJobs`, `JobRules`, `CircuitBreaker`: protocols over stored rows.
- `Ranking`, `RankingRules`, `SelectionCache`, `SelectionRules`: choosing a deployment, and the cache in front of
  the filter.
- `PromptTemplate`, `ChatHistory`: templates with placeholders, and the check of tool calls in a history.

Conventions. Code that updates fields or rows is a class whose methods are proved equal to functions on
the abstract state; the theorems are about these functions, over lists of steps. The modules named
`Rules` say the same once more without these functions: what each operation decides, read off the run. One database
transaction is one atomic step, so a list of steps is an interleaving. What the outside decides
(provider answers, validators, selection, clocks, hashes, identifiers) is a parameter: a function on
which nothing is assumed, or one with the property that is stated. `Decimal` and float values are exact
reals, amounts of micro-USD integers, times integers. Identifiers are natural numbers, ordered as the
source orders its strings; the text of templates is real text.

Four findings:

- The decoder's bound on an unfinished line is checked where a chunk ends, so it depends on the chunks;
  `Chunking` gives the exact condition and `LongLineDependsOnChunks` an input.
- The winner of a ranking can be dominated when a metric that counts is discounted as an estimate. Only
  latency, throughput and reliability can be; `WinnersEfficientExactly` gives the exact condition and
  builds the catalog for every policy that fails it. Ranking by cost alone, as for a stage that
  escalates, never fails it (`CheapestIsEfficient`).
- A request reads the clock before it waits for the cache's lock, so a hit may rest on a later reading
  than its own, or come after the deadline; `EarlyReadingDisagrees`, `LateAnswerDisagrees` and
  `SlowFilterDisagrees` are inputs, `HitAgreesExactly` the exact condition and `CacheAgrees` what holds
  without it.
- A ready decision without a cost cap can compile to a policy whose budget the contract refuses:
  `ReadyBeyondLimit` is one, and it happens exactly when the worst-case cost is over 1000000 micro-USD
  (`CompiledIsExecutable`).

## Model

| member | source | states |
|---|---|---|
| SseDecoder.Decoder.IterFeed | router/backend/buildbox_router/gateway/adapters.py:398-424 | one call of the incremental decoder, run to its end or first error, gives the events, the state and the error of the reference decoder that reads byte by byte |
| SseDecoder.Decoder.Finish | router/backend/buildbox_router/gateway/adapters.py:426-428 | accepts exactly when the terminal event was seen and nothing but white space is pending |
| SseDecoder.Chunking | router/backend/buildbox_router/gateway/adapters.py:389-424 | feeding chunks raises nothing if and only if feeding their concatenation raises nothing and no chunk ends inside an unfinished line over 65536 bytes; then events and state agree; an error in the content is the same error after the same events |
| SseDecoder.ChunkingInvariance | router/backend/buildbox_router/gateway/adapters.py:389-424 | when every line is within the bound, any two cuttings of a stream either both fail or give the same events and the same state |
| SseDecoder.LongLineDependsOnChunks | router/backend/buildbox_router/gateway/adapters.py:423-424 | a comment line one byte over the bound passes in one cutting and fails in another |
| SseDecoder.RoundTrip | router/backend/buildbox_router/execution_events.py:6-14 | decoding the encoder's output and the terminal event, in any chunking, gives back exactly the payloads in a state that finish accepts, if and only if the stream is at most 1048576 bytes long |
| SseDecoder.WholeDecides | router/backend/buildbox_router/gateway/adapters.py:389-424 | within the bounds on lines and on the whole stream, any two cuttings give the same events and the same error, failing streams included |
| SseFormat.DecodesFormat | router/backend/buildbox_router/gateway/adapters.py:398-428 | for any stream in the format (blocks of lines ended by LF after any number of CR, data lines with or without the space, comments and other fields anywhere, an unfinished or ill-formed end), however cut: the events are the payloads of its blocks up to the first fault, data lines joined by one line feed, with the exact error, and finish accepts exactly after the terminal event with no data pending and only white space left |
| SseFormat.EveryStream | router/backend/buildbox_router/gateway/adapters.py:401-421 | every stream of bytes has that format, up to its first line that is not UTF-8 |
| SseFormat.AnyFormRoundTrip | router/backend/buildbox_router/gateway/adapters.py:401-421 | payloads that parse, written in any form of the format and followed by the terminal one, are read back exactly, in any chunking, if and only if the stream is at most 1048576 bytes long |
| SseFormat.Utf8Exactly | router/backend/buildbox_router/gateway/adapters.py:405 | the byte table that the decoder checks a line against accepts exactly the encodings of sequences of code points without surrogates |
| TargetStream.StreamTarget | router/backend/buildbox_router/gateway/adapters.py:325-383 | the adapter's loops over blocks, events and choices give the chunks, the terminal observation or the error determined by the decoded stream as a whole |
| TargetStream.ObservationComesLast | router/backend/buildbox_router/gateway/adapters.py:325-383 | the gateway receives only chunks under the requested alias, and the terminal observation last and at most once; it comes exactly when the decoder read the whole stream to a proper end, no frame was bad and some chunk had a finish reason |
| TargetStream.CuttingDoesNotShow | router/backend/buildbox_router/gateway/adapters.py:325-383 | a stream whose lines are all within the decoder's bound and that completes in one cutting into blocks completes with the same events in every other |
| TargetStream.CuttingNeverShows | router/backend/buildbox_router/gateway/adapters.py:325-383 | within both bounds the events and the error of a stream do not depend on its cutting into blocks, whether it completes or not |
| TargetStream.WrittenStreamIsDelivered | router/backend/buildbox_router/gateway/adapters.py:325-383 | a stream of good frames, as encoded and however cut, arrives as exactly their chunks followed by the last reported usage |
| TargetRules.TargetExactly | router/backend/buildbox_router/gateway/adapters.py:325-383 | for any bytes: one chunk per frame before the first bad one, under the alias and with that frame's own delta, finish reason and usage; and the stream completes, with the last reported usage, exactly if it was read to its end, every frame is good (no error, the routed model, at most one choice, no refusal) and one carries a finish reason |
| StreamDelivery.StreamCollector.Accept | router/backend/buildbox_router/stream_validation.py:20-60 | refuses exactly the chunks the rules refuse, malformed call names and over-long arguments included, and otherwise moves to the state that adds the chunk's text, tool arguments, usage and finish reason |
| StreamDelivery.StreamCollector.ToCompletion | router/backend/buildbox_router/stream_validation.py:62-82 | fails exactly without a finish reason; otherwise the collected text and the calls by ascending index |
| StreamRules.CollectsExactly | router/backend/buildbox_router/stream_validation.py:20-60 | chunks are collected exactly if each one fits those before it: one usage, nothing after a finish reason, calls begun with identifier and name and continued under them, bounded text and arguments; and what is collected is their texts and arguments joined |
| StreamRules.StreamReadExactly | router/backend/buildbox_router/gateway/service.py:666-718 | a stream of events is read to its end exactly if each event is welcome where it comes: a chunk of the alias that fits, before the one observation, and no error |
| StreamRules.ShownExactly | router/backend/buildbox_router/gateway/service.py:666-696 | the client is shown a copy, all but the finish reason, of each chunk with content before the first event that is not welcome, and of that one if only the client does not take it; and the reading breaks off with the exact reason |
| StreamRules.CompletionExactly | router/backend/buildbox_router/stream_validation.py:62-82 | a completion is made exactly if a finish reason came, with the text unless it is empty, the usage, and every call behind those of smaller index |
| StreamDelivery.Stream | router/backend/buildbox_router/gateway/service.py:628-768 | the loop over candidates and events does, exposes and accounts for exactly what the sequence of scripts determines |
| StreamDelivery.DeliveryIsSafe | router/backend/buildbox_router/gateway/service.py:628-768 | chunks come from one candidate and no other is tried after them; none has a finish reason; whoever showed one is accounted for afterwards, nobody twice; the end comes last, a finish reason directly after successful accounting, a failure marked partial exactly when something was shown |
| StreamDelivery.DeliveredIsValidated | router/backend/buildbox_router/gateway/service.py:719-764 | after a delivered finish reason, the text and tool calls put together from the exposed chunks are those of one completion that passed validation |
| StreamFallback.NextIsTriedExactly | router/backend/buildbox_router/gateway/service.py:742-768 | a candidate that fails with an error of some kind before showing anything, and is neither last nor cancelled, is followed by the next one if and only if no kinds are listed or this one is |
| StreamFallback.FirstThatStays | router/backend/buildbox_router/gateway/service.py:628-768 | the answer is decided by the first candidate that does not pass on: before its acts come only those of the candidates before it |
| StreamFallback.StopsByFirstCause | router/backend/buildbox_router/gateway/service.py:640-741 | a candidate stops by the first cause in its course, from refusal to saving, with that reason; what was shown and accounted for by then is exactly stated |
| StreamFallback.FinishesExactly | router/backend/buildbox_router/gateway/service.py:719-741 | a candidate delivers a finish reason exactly if it is admitted, its stream is read to the end, the completion is whole, valid and within the ceiling, accounted for and saved |
| StreamFallback.FallbackDelivers | router/backend/buildbox_router/gateway/service.py:628-768 | if all candidates before the j-th fail unseen for allowed reasons and nothing stops the j-th, the answer ends with its finish reason |
| StreamPath.Serve | router/backend/buildbox_router/gateway/service.py:628-768 | reading the providers' blocks and running the loop over candidates on the events gives the answer determined by the blocks and the circumstances |
| StreamPath.BlocksDecideNothing | router/backend/buildbox_router/gateway/service.py:628-768 | within the decoder's bounds, every act of an answer, failures, fallbacks and accounting included, depends on the providers' bytes and not on how they are cut |
| StreamPath.AnswerIsTheStream | router/backend/buildbox_router/gateway/service.py:666-764 | after a delivered finish reason, text, tool calls and finish reason at the client are those of one provider's completed byte stream, nothing left out or added, and form a completion that passed validation |
| PathRules.ProviderCompletesExactly | router/backend/buildbox_router/gateway/service.py:640-741 | a provider's stream is delivered exactly if the candidate is admitted, the bytes come to a proper end, no check raises on the way, each chunk fits those before it, the completion is approved, and it is accounted for and saved |
| PathRules.BrokenStreamFails | router/backend/buildbox_router/gateway/service.py:742-768 | a stream that breaks off fails its candidate as a failure of the provider, after everything before has been shown |
| ChatHistory.Combinations | router/backend/buildbox_router/execution_contracts.py:566-581 | the loop over messages accepts exactly the histories with unique, declared calls in which every block of calls is followed at once by one result per call, in any order |
| PromptTemplate.LiteralHasNone | router/backend/buildbox_router/intelligence/planner.py:297 | no objective, however many braces it has, leaves a placeholder after the two replacements |
| PromptTemplate.LiteralKeepsText | router/backend/buildbox_router/intelligence/planner.py:297 | the two replacements add nothing but spaces, and change nothing in an objective without double braces |
| PromptTemplate.TemplatePlaceholders | router/backend/buildbox_router/intelligence/planner.py:297-302 | the placeholders found in a compiled template are exactly its binding keys |
| PromptTemplate.ValidateInputs | router/backend/buildbox_router/execution_security.py:26-44 | accepts exactly the inputs that serialize within 65536 bytes, have the declared names and the declared types |
| PromptTemplate.InputsRefusedExactly | router/backend/buildbox_router/execution_security.py:26-44 | inputs are refused exactly if they do not serialize within 65536 bytes, a name is missing or undeclared, or a value declared as text, number or boolean is of another type |
| PromptTemplate.RenderChecked | router/backend/buildbox_router/gateway/runner.py:42-57 | refuses unfit inputs and a text over 16000 characters, and otherwise gives the one substitution pass |
| PromptTemplate.RenderTemplate | router/backend/buildbox_router/gateway/runner.py:42-57 | rendering a compiled template fills exactly the bindings and leaves the literal objective alone; it is refused exactly when the inputs are not bounded texts for the bindings or the result is over 16000 characters |
| PromptTemplate.TemplateFits | router/backend/buildbox_router/execution_contracts.py:116 | within the limits of objective and identifiers the template is within its own |
| Ranking.IsDominated | router/backend/buildbox_router/intelligence/optimization.py:323-338 | the flag-driven loop decides dominance: no metric worse, one better |
| Ranking.DominanceIsStrictOrder | router/backend/buildbox_router/intelligence/optimization.py:323-338 | dominance is irreflexive, asymmetric and transitive, unknown metrics included |
| Ranking.Rank | router/backend/buildbox_router/intelligence/optimization.py:298-361 | the result is a permutation of the scored candidates in the order of the sort key |
| RankingRules.RankedExactly | router/backend/buildbox_router/intelligence/optimization.py:298-361 | every candidate is there with its assessment, eligible ones by falling utility and then identifier; the utility is the mean of the metrics by their weights, each from 0 at the worst to 1 at the best value, less the discount if estimated, and below all if unknown; efficient means that no other is as good in every weighted metric and better in one |
| Ranking.RankingIgnoresOrder | router/backend/buildbox_router/intelligence/optimization.py:298-361 | two input orders give one ranking |
| Ranking.WinnerIsEfficient | router/backend/buildbox_router/intelligence/optimization.py:298-361 | without a discounted metric the first eligible candidate is dominated by none and marked so |
| Ranking.WinnersEfficientExactly | router/backend/buildbox_router/intelligence/optimization.py:216-319 | over all candidates as the assessment labels them, winners are undominated for a policy if and only if its discount is zero or latency, throughput and reliability, the only metrics that can be estimates, have no weight |
| Ranking.CheapestIsEfficient | router/backend/buildbox_router/intelligence/planner.py:127-132 | a stage that escalates starts with an undominated deployment whatever the discount, because it is ranked by cost alone |
| SelectionCache.EligibilityCache.Eligible | router/backend/buildbox_router/gateway/preflight.py:75-102 | look, filter and store in sequence: the answer is the fresh entry or the filtered candidates, and the cache is the one this leaves |
| SelectionCache.StoreKeepsValid | router/backend/buildbox_router/gateway/preflight.py:96-102 | storing keeps the most recently used keys, at most 128, each with its own entry and with the new one last |
| SelectionCache.HitAgreesExactly | router/backend/buildbox_router/gateway/preflight.py:75-102 | after any interleaving of lookups and stores, each request having read the clock before it waited for the lock: a hit is what filtering would give at the request's own reading, for every decision of the filter, if and only if the candidates' records already started at that reading are those that had not expired when the entry's filter came to them |
| SelectionCache.CacheAgrees | router/backend/buildbox_router/gateway/preflight.py:75-102 | a hit served before the entry's deadline is what filtering would give at that moment, and at the request's reading unless that is older than the writer's; a request that did not wait always agrees; the cache holds at most 128 entries |
| SelectionRules.HitsExactly | router/backend/buildbox_router/gateway/preflight.py:75-102 | after any interleaving, a lookup hits if and only if its key is among the 128 used last and the reading is before the deadline of the last result that could be kept: five seconds after its writer's reading, or the first expiry of a record |
| SelectionRules.FilterExactly | router/backend/buildbox_router/gateway/preflight.py:86-95 | the filter keeps exactly the admitted candidates in their order, each judged by whether its first record is current at its own reading |
| SelectionCache.EarlyReadingDisagrees | router/backend/buildbox_router/gateway/preflight.py:79-84 | a request that read the clock before a record started, and waited for the lock while another stored, is given the later answer |
| SelectionCache.LateAnswerDisagrees | router/backend/buildbox_router/gateway/preflight.py:79-84 | a request that waited past the deadline is given an answer that has run out |
| SelectionCache.SlowFilterDisagrees | router/backend/buildbox_router/gateway/preflight.py:79-99 | a filter that outlasts a record leaves an answer that is wrong for a waiting request whose reading is younger than the writer's |
| CircuitBreaker.DeploymentHealth.Acquire | router/backend/buildbox_router/gateway/health.py:27-56 | creates or updates the row and grants exactly when the stored deadlines admit |
| CircuitBreaker.DeploymentHealth.Observe | router/backend/buildbox_router/gateway/health.py:58-94 | updates an existing row only, counters and deadlines together |
| CircuitBreaker.TableRefines | router/backend/buildbox_router/gateway/health.py:27-94 | after any calls, each row holds the length of the trailing run of unhealthy observations, the totals, and deadlines that are open exactly when that run reaches the threshold |
| CircuitBreaker.GrantIsHistory | router/backend/buildbox_router/gateway/health.py:27-56 | whether a call is granted follows from the history of its key |
| CircuitBreaker.RefusedExactly | router/backend/buildbox_router/gateway/health.py:27-94 | the table refuses exactly when the key's last observations, as many as the policy says, are all provider failures, rate limits or timeouts, and the cooldown is not over or a probe was granted since less than 120 seconds ago |
| CircuitBreaker.ProbesAreApart | router/backend/buildbox_router/gateway/health.py:27-56 | between observations an open circuit grants no two probes within 120 seconds, and none before the cooldown is over |
| CircuitBreaker.GrantedProbesAreApart | router/backend/buildbox_router/gateway/health.py:27-56 | in any run of calls on the whole table, two granted acquires of an open key with no observation of it between them are at least 120 seconds apart |
| CircuitBreaker.DeploymentHealth.Unavailable | router/backend/buildbox_router/gateway/health.py:15-25 | the scan reports exactly the configurations whose acquire would be refused at that moment, none left out |
| CircuitBreaker.UnavailableIsHistory | router/backend/buildbox_router/gateway/health.py:15-56 | after any run of calls, what is reported as unavailable is what the reference breaker does not grant, each configuration judged by its own calls |
| RuntimeQueue.RuntimeStorage.ClaimRuntime | router/backend/buildbox_router/execution_storage.py:175-231 | expires what is overdue, then claims a waiting row of earliest deadline, or none if none waits |
| RuntimeRules.ClaimExactly | router/backend/buildbox_router/execution_storage.py:175-231 | in every run, what a claim does to each row, request and input: overdue rows are given up with their live requests, expired inputs deleted, the waiting row of earliest deadline claimed for 125 seconds, and nothing else |
| RuntimeRules.GivenUpExactly | router/backend/buildbox_router/execution_storage.py:175-231 | a claim gives a row up exactly if it was claimed more than 125 seconds before and not finished, or waits past the deadline it was queued with |
| RuntimeRules.AdvanceExactly | router/backend/buildbox_router/execution_storage.py:275-292 | a request moves on exactly along the seven listed transitions and from the expected state |
| RuntimeRules.FinishExactly | router/backend/buildbox_router/execution_storage.py:243-273 | finishing closes a claimed row, or gives it up with its request if the outcome is uncertain, and deletes the input |
| RuntimeRules.EnqueueExactly | router/backend/buildbox_router/execution_storage.py:394-436 | a request is queued exactly if its key and its identifier are new, waiting until its deadline, with its input kept for 120 seconds |
| RuntimeQueue.ClaimedAtMostOnce | router/backend/buildbox_router/execution_storage.py:175-231 | in every interleaving a queue row is claimed at most once |
| RuntimeQueue.EnteredAtMostOnce | router/backend/buildbox_router/execution_storage.py:275-292 | in every interleaving a request enters each state, above all running, at most once |
| RuntimeQueue.SettledForGood | router/backend/buildbox_router/execution_storage.py:243-292 | a request past queued and running never changes again, and a worker whose row was given up can change nothing |
| RuntimeQueue.ResubmissionChangesNothing | router/backend/buildbox_router/execution_storage.py:394-436 | a registered key returns its identifier for the same content, refuses other content, and adds no row at any later time |
| PlanningJobs.JobStorage.Claim | router/backend/buildbox_router/storage.py:89-180 | looks at the claimable job updated longest ago and claims it, fails it after three claims, or holds it for reconciliation after a paid call |
| PlanningJobs.JobStorage.ReserveCall | router/backend/buildbox_router/planning_storage.py:319-377 | reserves within the job's and the approval's limits under the current token, or changes nothing |
| JobRules.ClaimExactly | router/backend/buildbox_router/storage.py:89-180 | in every run a claim looks at the job that waits or was left for more than a minute, updated longest ago; it holds it if a call of a planning job was reserved before, fails it after three claims, and otherwise hands out the token of the next number; nothing else changes |
| JobRules.ReservationExactly | router/backend/buildbox_router/planning_storage.py:319-377 | in every run a call is reserved exactly if the amount is positive and approved, the worker holds the running job, and the sums reserved for the job and under the approval leave room under one cap |
| JobRules.SettlementExactly | router/backend/buildbox_router/planning_storage.py:379-393 | the first settlement records the cost exactly if the model is the one asked and the cost within the reservation; otherwise the call stays unknown |
| JobRules.CommitsExactly | router/backend/buildbox_router/planning_storage.py:227-246 | closing a job takes effect exactly if it still runs under the token of its last claim |
| JobRules.CancelsExactly | router/backend/buildbox_router/planning_storage.py:227-246 | cancelling takes effect exactly if the job is still in the status and under the claim that was read |
| PlanningJobs.ClaimedAtMostThrice | router/backend/buildbox_router/storage.py:89-180 | a job is claimed at most three times, and the n-th claim hands out token n |
| PlanningJobs.PaidWorkIsNotRepeated | router/backend/buildbox_router/storage.py:107-141 | after a reservation for a planning job no claim of it succeeds and every later reservation carries the same token |
| PlanningJobs.ApprovalsConserve | router/backend/buildbox_router/planning_storage.py:319-393 | an approval always holds exactly what was reserved under it, within its cap, and no less than what is known to be spent |
| PlanningJobs.StaleWorkerIsRefused | router/backend/buildbox_router/planning_storage.py:227-246 | from a newer claim on, an older token changes no table, whatever status it saw |
| PlanningJobs.EndedForGood | router/backend/buildbox_router/planning_storage.py:227-246 | an ended job keeps its status and attempts, a settled call keeps everything |
| BudgetLedger.Ledger.ReserveAmount | router/backend/buildbox_router/execution_storage.py:718-750 | reserves within the cap under new identifiers, or changes nothing |
| BudgetLedger.Ledger.ReconcileUsage | router/backend/buildbox_router/execution_storage.py:752-793 | settles once; an overage freezes the budget |
| LedgerRules.BudgetExactly | router/backend/buildbox_router/execution_storage.py:696-716 | a budget exists exactly if it was provisioned with a cap of 0 to 1000000, and keeps the first |
| LedgerRules.ReservationExactly | router/backend/buildbox_router/execution_storage.py:718-750 | in every run a reservation is granted exactly if its amount is admissible, the budget has so much left, nothing after an overage, and neither identifier nor request was used; each refusal is told apart |
| LedgerRules.RowTellsReports | router/backend/buildbox_router/execution_storage.py:752-793 | a reservation is reconciled with the first reported cost that is known and within its amount, uncertain after other reports only, and reserved without any, whatever else happens |
| BudgetLedger.LedgerConserves | router/backend/buildbox_router/execution_storage.py:696-793 | in every run a budget holds exactly the sum of its reservations, or its whole cap from the first overage on, and known spending is within both |
| BudgetLedger.LedgerOnlyGrows | router/backend/buildbox_router/execution_storage.py:696-793 | caps and reservations never change, holds never shrink, a reconciled row and a freeze are final |
| BudgetLedger.ReservedOnce | router/backend/buildbox_router/execution_storage.py:718-750 | an identifier or request is reserved at most once, whatever happens in between |
| AttemptEngine.BoundCost | router/backend/buildbox_router/gateway/preflight.py:285-312 | the loop over prices gives the bound of the price list, or refuses it |
| AttemptEngine.BoundExistsExactly | router/backend/buildbox_router/gateway/preflight.py:285-312 | a bound exists exactly for a local target, or for an unconditional one with distinct components, the three required among them, all in USD, each a token price of prompt or completion or zero in a known unit |
| AttemptEngine.BoundCoversBill | router/backend/buildbox_router/gateway/preflight.py:285-312 | the bound is never below the bill over all prices of the list, for any quantities of the other components |
| AttemptEngine.CostBoundIsPrice | router/backend/buildbox_router/gateway/preflight.py:285-312 | the bound is the price of the tokens rounded up: never below it, less than one micro-USD above |
| AttemptEngine.CostBoundMonotone | router/backend/buildbox_router/gateway/preflight.py:285-312 | more input never has a smaller bound, and whether a target is priced does not depend on the counts |
| AttemptEngine.Infer | router/backend/buildbox_router/gateway/service.py:469-562 | the loop of fallbacks and repairs makes exactly the attempts that the outcomes determine and ends with the last of them |
| AttemptEngine.RefusedExactly | router/backend/buildbox_router/gateway/service.py:476-495 | the checks before the first attempt refuse exactly for the stated reasons, in their order, in terms of the candidates' own bounds |
| AttemptEngine.TraceExactly | router/backend/buildbox_router/gateway/service.py:493-562 | a list of attempts is the trace exactly if it begins at the first candidate and each entry answers its reply and leads to the next; none follows a cancelled request |
| AttemptEngine.StageSpendBounded | router/backend/buildbox_router/gateway/service.py:476-562 | for every list of outcomes, the attempts of a stage reserve together at most its cap, growing repair prompts included |
| AttemptEngine.StageAttemptsBounded | router/backend/buildbox_router/gateway/service.py:496-560 | at most min(attempts, candidates + repairs) attempts, never back to an earlier candidate, repairs and fallbacks only after the failures that allow them, none after a success |
| Accounting.InferOnce | router/backend/buildbox_router/gateway/service.py:217-440 | one attempt checks, reserves on the admission's budget, and settles with what the provider reported, while others use the ledger in between |
| AccountingRules.AttemptExactly | router/backend/buildbox_router/gateway/service.py:217-440 | one attempt case by case: blocked, unpriced, no room, a used request; or reserved, with a row that says what was reported, and failed by the provider or, over the reservation, as a violation of the budget |
| AccountingRules.AttemptsExactly | router/backend/buildbox_router/gateway/service.py:469-562 | all attempts of an inference are of that kind, one after the other, from the tables before to the tables after |
| Accounting.Infer | router/backend/buildbox_router/gateway/service.py:469-562 | the loop of fallbacks and repairs with the ledger in it gives the attempts and the tables that the circumstances determine |
| Accounting.OnLedgerIsTrace | router/backend/buildbox_router/gateway/service.py:469-562 | whatever the ledger answers, the attempts are those of the engine for some world, so all bounds on attempts and spending hold |
| Accounting.InferenceIsAccounted | router/backend/buildbox_router/execution_storage.py:718-793 | after an inference, its rows hold exactly what its attempts reserved, whatever others do meanwhile, and together with the others' rows that is within the budget's hold and cap |
| Accounting.OverageStopsSpending | router/backend/buildbox_router/execution_storage.py:768-777 | once a provider reports more than an attempt reserved, no later attempt of the inference reserves anything on the budget, whatever others do |
| Accounting.LedgerRefusesNothing | router/backend/buildbox_router/gateway/service.py:217-246 | on a budget with room for the stage's cap, without others and without an overage, the ledger changes no attempt, and the budget holds exactly their sum on top of what it held |
| SpendEnvelope.RunSpendBounded | router/backend/buildbox_router/execution_contracts.py:326-338 | one run of a policy, however it ends, reserves no more money, makes no more model calls and no more tool calls than the policy's budget allows |
| SpendEnvelope.SubmitComparison | router/backend/buildbox_router/execution_comparisons.py:34-81 | refuses an excessive envelope or a registered key without a change; otherwise fixes the cells and queues them in order until one is refused by its admission or meets a conflict |
| SpendEnvelope.ExceedsExactly | router/backend/buildbox_router/execution_comparisons.py:34-42 | refused as excessive, without a change, exactly if the budgets of one child per policy and sample add up to more than the request's budget in money, model calls or tool calls |
| SpendEnvelope.CellsInOrder | router/backend/buildbox_router/execution_comparisons.py:50-60 | the cells come policy by policy, and for each policy sample by sample |
| SpendEnvelope.ChildrenQueuedOnce | router/backend/buildbox_router/execution_comparisons.py:51-81 | with fresh and distinct child identifiers, each cell before the first refused one has exactly one row, waiting and with its own request; no other row is touched or added; and every policy runs on every sample if and only if none is refused |
| SpendEnvelope.ComparisonSpendBounded | router/backend/buildbox_router/execution_comparisons.py:34-81 | over every interleaving and all outcomes, the child runs of an approved comparison together reserve, call models and call tools at most as the request's budget allows |
| SpendEnvelope.ResubmissionQueuesNothing | router/backend/buildbox_router/execution_comparisons.py:42-50 | submitting a registered comparison again adds nothing |
| DependencyGraph.CycleCheck.Visit | router/backend/buildbox_router/contracts.py:154-164 | one visit either ends with the node visited and the path as before, or with a cycle |
| DependencyGraph.DepthFirstAccepts | router/backend/buildbox_router/contracts.py:151-168 | terminates, and accepts a graph with declared dependencies if and only if it has a topological rank |
| DependencyGraph.LayersAccept | router/backend/buildbox_router/routing_contracts.py:83-88 | terminates, and accepts exactly the graphs with declared dependencies and a topological rank |
| DependencyGraph.LayersAreApart | router/backend/buildbox_router/routing_contracts.py:83-88 | the layers share no node and have all dependencies in earlier layers |
| Planner.OrderStages | router/backend/buildbox_router/intelligence/planner.py:115-122 | terminates with a permutation of the stages in which each comes after its dependencies |
| Planner.ParallelWaves | router/backend/buildbox_router/intelligence/planner.py:188-197 | never reports a cycle for a valid plan and gives its waves |
| Planner.OrderAndWaves | router/backend/buildbox_router/intelligence/planner.py:115-122 | the waves cut the dependency order into consecutive pieces, and each piece is a layer of the graph |
| Planner.CriticalPath | router/backend/buildbox_router/intelligence/planner.py:221-227 | a latency exactly when all durations are known; then the latest end time |
| Planner.LatencyIsHeaviestChain | router/backend/buildbox_router/intelligence/planner.py:221-227 | the latency is the weight of the heaviest chain of dependencies |
| Planner.LatencyWithinWaves | router/backend/buildbox_router/intelligence/planner.py:221-227 | the latency never exceeds the longest durations of the waves summed up |
| RoutingPlan.FallbacksEscalate | router/backend/buildbox_router/intelligence/planner.py:133-158 | fallbacks are eligible, strictly better, the best first and none better left out, distinct, not the selected one, and leave room for repairs |
| RoutingPlan.FallbacksExactly | router/backend/buildbox_router/intelligence/planner.py:133-158 | the fallbacks are the best of the eligible deployments known to be better than the selected one, by quality and then identifier, in order, and as many as leave room for the repairs |
| RoutingPlan.Project | router/backend/buildbox_router/intelligence/planner.py:185-220 | the loop over stages gives calls, total cost and durations of all of them |
| RoutingPlan.WorstCostIsWorst | router/backend/buildbox_router/intelligence/planner.py:199-214 | first attempts at the targets in any order, each at most once, with the allowed repairs anywhere, are never forecast to cost more than the worst case, and attempts in the order of the targets cost exactly that |
| RoutingPlan.DurationIsWorst | router/backend/buildbox_router/intelligence/planner.py:201-220 | with known latencies the duration of a stage is the largest sum of latencies over first attempts in any order with repairs anywhere, and attempts in the order of the targets take as long |
| RoutingPlan.TargetsArePinned | router/backend/buildbox_router/intelligence/planner.py:199 | the selected deployment followed by its fallbacks, the order of execution, is a permutation of the candidates that the worst case is computed from |
| Forecast.TraceEscalates | router/backend/buildbox_router/gateway/service.py:493-560 | whatever providers answer, the attempts of a stage go through its targets in order, each once, with at most the allowed repairs in between |
| Forecast.EscalationsAreTraces | router/backend/buildbox_router/gateway/service.py:493-560 | every such list of attempts is what the loop makes for some answers |
| Forecast.StageForecastIsWorst | router/backend/buildbox_router/intelligence/planner.py:199-214 | no answers make the attempts of a stage cost more by the forecast than its worst case, and some make them cost exactly that |
| Forecast.PlanForecastIsWorst | router/backend/buildbox_router/intelligence/planner.py:198-220 | the cost of a ready decision is the maximum of the forecast over all executions of its plan |
| ForecastLimits.StageDurationIsWorst | router/backend/buildbox_router/intelligence/planner.py:201-220 | no answers make the attempts of a stage take longer together than its duration, and some make them take as long |
| ForecastLimits.PlanLatencyIsWorst | router/backend/buildbox_router/intelligence/planner.py:221-227 | the latency is known exactly if every target of every stage has one; then it is the maximum over all executions of the plan and all chains of stages |
| ForecastLimits.ReadyExactly | router/backend/buildbox_router/intelligence/planner.py:160-249 | ready exactly if nothing is restricted, no tools or modalities are asked for, cheap-first has terms, repairs fit, every stage has a target, all prices are known, and no execution makes more calls, costs more or takes longer along any chain than the profile allows |
| ForecastLimits.CompiledBudgetIsWorst | router/backend/buildbox_router/intelligence/planner.py:309-366 | the engine's attempts under a compiled stage's limits and reasons for a fallback are never forecast to cost more than the stage's own budget, and for some answers they cost exactly that |
| Forecast.EscalationLeavesCandidateOrder | router/backend/buildbox_router/intelligence/planner.py:143-158 | three deployments of rising cost and quality are tried first, third, second, at the worst case of the three |
| RoutingPlan.Plan | router/backend/buildbox_router/intelligence/planner.py:115-249 | the decision has the dependency order, its waves, the worst case of calls and cost and the critical path, and is ready exactly without a blocker |
| PolicyCompiler.Validate | router/backend/buildbox_router/execution_contracts.py:242-341 | the validator with its sets and loops decides exactly the declared demands on an executable policy |
| PolicyCompiler.BuildPolicy | router/backend/buildbox_router/intelligence/planner.py:262-419 | builds the draft stage by stage and patches the last stage, or refuses an unready or unpriced decision |
| PolicyCompiler.CompilesExactly | router/backend/buildbox_router/intelligence/planner.py:262-317 | a decision compiles exactly if it is ready, both token estimates are there, and every deployment a stage may run has a known price |
| CompiledRun.CompiledExactly | router/backend/buildbox_router/intelligence/planner.py:268-419 | each stage of a ready decision becomes one node that reads the results of all its dependencies and the original input and nothing else, with the decided targets, validators, repairs, prompt and limits, its worst case as its cost, and JSON on the last alone |
| PolicyCompiler.CompiledIsExecutable | router/backend/buildbox_router/intelligence/planner.py:262-419 | every ready decision compiles to a draft that meets all demands on policy and workflow, its budgets adding up to the decision's worst case, no stage over three attempts; it is within the limits of a budget if and only if that cost is at most 1000000 |
| PolicyCompiler.ReadyBeyondLimit | router/backend/buildbox_router/intelligence/planner.py:262-419 | a ready decision, one stage on a deployment of two million micro-USD without a cost cap, whose draft no valid budget admits |
| PolicyCompiler.FitsStage | router/backend/buildbox_router/execution_contracts.py:253-335 | the guards on one stage, with their lookups in dictionaries and sets, accept exactly the stages that fit their node |
| Runner.Submit | router/backend/buildbox_router/gateway/runner.py:279-352 | the frontier loop gives the trace that outcomes and stop requests determine |
| RunEnds.RunEndsExactly | router/backend/buildbox_router/gateway/runner.py:279-352 | a run fails exactly with the first frontier in which a stage does not complete, and otherwise succeeds, stops or waits exactly by whether all stages were dispatched, a stop was asked for, or a stage for a human is next |
| Runner.RunFollowsLayers | router/backend/buildbox_router/gateway/runner.py:279-352 | the empty-frontier error never comes up; the frontiers are the first layers of the graph; every dispatched stage finds all it reads, with its types; an undisturbed run succeeds through all layers |
| Runner.StagesRunOnce | router/backend/buildbox_router/gateway/runner.py:279-352 | no stage is dispatched twice, and all it depends on was dispatched in earlier frontiers |
| Runner.CompiledRunFollowsWaves | router/backend/buildbox_router/gateway/runner.py:279-352 | running the policy compiled from a ready decision, the k-th frontier is the k-th parallel wave as a set |
| CompiledRun.RunHandsOver | router/backend/buildbox_router/gateway/runner.py:425-432 | in any run, each stage dispatched gets exactly the inputs of its node: the run's own, or the output that the named stage answered in an earlier frontier |
| CompiledRun.CompiledRunHandsOver | router/backend/buildbox_router/gateway/runner.py:279-352 | in a compiled run every stage is dispatched with exactly the original input and, for each dependency, the result which that stage answered in an earlier frontier |

## Left out

- SseDecoder.RoundTrip: what JSON serialization writes and parsing reads is a function that gives back what was written; payloads hold no raw line feed and are no error objects.
- StreamDelivery.DeliveryIsSafe: errors of the store while an interrupted attempt is being accounted for end the generator without a further chunk and are not modelled.
- StreamDelivery.StreamCollector.Accept: what the type of a chunk already demands of its parts (patterns of call identifiers, lengths of single deltas) is not modelled.
- StreamDelivery.DeliveredIsValidated: the rules of `validate_completion` are an uninterpreted predicate on completions.
- TargetStream.WrittenStreamIsDelivered: served model and endpoint identities kept in the trace are not modelled.
- AttemptEngine.CostBoundIsPrice: prices are exact reals; the 28-digit context of `Decimal` is not modelled.
- AttemptEngine.Infer: whether an attempt is blocked, how it fails and how long a repair prompt gets come from outside; reservations are the subject of `Accounting`; the records of dispatches and traces are not modelled.
- Accounting.InferOnce: the reservation of an application key, made before the one on the budget, counts as part of what may block an attempt.
- BudgetLedger.LedgerConserves: expired or revoked admissions and the reservations of application keys beside the sandbox budget are not modelled.
- CircuitBreaker.TableRefines: the policy is fixed over the calls; other policies on the same row are not considered.
- SelectionCache.HitAgreesExactly: the rules of the hard filter other than the time window of a candidate's record are an uninterpreted function.
- Ranking.Rank: how metrics are observed in a catalog is not modelled; each candidate comes with them, within the ranges and labels that the assessment gives them.
- RuntimeQueue.ClaimedAtMostOnce: encryption and decoding of the queued inputs are not modelled.
- PlanningJobs.PaidWorkIsNotRepeated: stated at the storage level, on the token a step carries; the planning service rereads the token before it completes a job.
- PlanningJobs.ApprovalsConserve: amounts are reserved and settled as integers; the conversion from dollars and the provider exchange are not modelled.
- RoutingPlan.Plan: the shape of a plan from strategy and request, capability rules and explanations are not modelled; the stages of the plan are given.
- Planner.LatencyIsHeaviestChain: assumes that no duration is negative, as latencies are.
- RoutingPlan.DurationIsWorst: assumes that no latency is negative; so does `ForecastLimits.ReadyExactly`.
- PolicyCompiler.CompiledIsExecutable: patterns and lengths of identifiers and prose are not modelled; the length of templates is the subject of `TemplateFits`. Loop bounds and tools of bounded agents, which no executable policy may contain, are left out.
- Runner.RunFollowsLayers: the 64 KiB bound on the inputs of a stage counts as a failing stage; events, checkpoints and the classification of an error as failed or uncertain are not modelled.
- SpendEnvelope.SubmitComparison: what a child's own admission checks is an uninterpreted predicate on cells, and the record that keeps the cells is a result of the method; reading a comparison back is not modelled.
- SpendEnvelope.ComparisonSpendBounded: a run starts when its request enters `running`.
- HTTP routes, authentication, keys, sockets, TLS and the transports: foreign input and output.
- SQL text, migrations and isolation levels: tables are maps and transactions atomic steps.
- Bounded enumeration of whole selections, workload analysis, publishing of catalogs and the research lane: no property of the depth above.
- Versioned records, policy transitions and payload retention: copying of records and single-row guards.
- The studio, scripts, demos and fixtures.
