# Verified models of ONMC's decision cores

ONMC ("oh no my claudecode") runs coding agents in a verify loop, learns from what worked and reports on
it. Around its command line it keeps a number of small cores whose correctness is a statement about all
inputs, all runs or all histories. This project models those cores in Dafny and proves the statements.

| module | what it models |
|---|---|
| `PilotLedger`, `PilotIntervals`, `PilotCache` | the three reference implementations of the working-context pilot: an atomic replay-safe ledger, an interval normaliser, a TTL cache |
| `Telemetry` | the backward scan that reads costs and token counts out of an agent's output |
| `FailureTaxonomy`, `PassRates`, `AblationGrid` | the benchmark harness: failure buckets, pass^k, the grid run under a spend ceiling |
| `Arena` | the ELO ledger folded over the bout log, with its mutable records |
| `CanonicalJson`, `Attestations` | the canonical encoding of a claim, and sign / serialise / verify |
| `Achievements` | levels, streaks and the first-unlock stamps of badges |
| `Autopilot`, `Approvals` | the learning gate and the approval executor, as traces of outside effects |
| `CommandRegistry`, `CliReference`, `Sarif` | command collisions, the command-tree walk, the SARIF rule index |
| `Wrappers`, `Sequences`, `PyText`, `Totals` | `Option`/`Result`; stable sort, filter and map; `strip` and friends; sums over maps |

Code that changes state step by step is imperative here too: `Cache`, `Ledger`, `App`, `Discovery`,
`Session` and `Run` are classes, and loops are loops. Such a method is proved against a specification
function or a relation, and the theorems are about that. `sorted` is the stable sort of `Sequences`; a
raised exception is the `Raised` case of `Result`; a call into code outside the model returns an
arbitrary value or raises, and where the order of calls matters it leaves an effect in a trace.

## Where the code and its documentation part

The code is followed everywhere. Each case below names its lemmas: inputs on which the two differ and,
where a condition separates the good inputs from the bad ones, the proof that the condition is exact.

- **Telemetry scan.** After a marker without a number the scan steps back past every overlapping
  occurrence of the marker, so it can miss a reading. It is exact on every output if and only if the key
  itself, read as the text after a marker, is not a number (`ScanIsExactWhen`); otherwise
  `SkippedReading` gives the output. All keys the benchmarks use are safe (`BenchmarkKeysArePlain`).
- **TTL cache.** The cache is a never-evicting map with deadlines if and only if its clock does not go
  back (`RefinesExactlyWhenClockIsMonotone`); `ClockGoesBack` gives the failing calls.
- **Canonical encoding.** It is injective on claims of Unicode scalar values, but a surrogate pair given
  as two code points encodes like the character it stands for (`SurrogatePairCollides`); any two claims are
  encoded alike if and only if their sorted items agree in UTF-16 (`CanonicalIsExactlyWire`).
- **Attestations.** An attestation with an empty subject or algorithm does not survive its dictionary
  form (`DictRoundTrip`, an equivalence). `verify_attestation` promises a boolean for every input, and
  `from_dict` that a malformed file verifies as false; a non-ASCII signature and a secret without an
  encoding raise (`VerifyRaises`), and `VerifyAnswersExactlyWhen` says when there is an answer.
- **Streaks.** The prose of `_order_receipts` says undated receipts cannot affect a streak. They sort
  last and are walked first: `UndatedReceiptStartsAStreak` is the smallest example, and
  `UndatedReceiptsExtendTheStreak` and `UndatedReceiptsInTheLongestStreak` state exactly what they do.
- **Level curve.** The code's threshold is `(L-1)*L*10/2`; the formula of the module's prose gives the end
  of each level instead, 30 and not 10 for level 2 (`DocumentedCurveIsOneLevelOn`).
- **Registry.** A strict call misses a name repeated within one feature (`RepeatWithinFeatureIsMissed`)
  and names left by a feature that then raises (`ThrowAfterAddingIsMissed`). The promise, that it returns
  normally if and only if no name is duplicated, is kept exactly when the call raises or every turn it
  took was free of both (`StrictCallIsSoundExactlyWhen`).
- **SARIF.** "Deterministic for the same findings" holds of a list of findings if and only if those with
  equal sort keys give the same result and, where they have the least key of their rule, the same rule
  (`OrderDoesNotShowExactlyWhen`); `SwapShowsExactlyOnTies` has the failing pairs.
- **Failure accounting.** On arbitrary rows the ablation report counts a measured pass with an
  infrastructure error twice, and an `infra` pass without one not at all; `ArmAccounting` is the exact
  equation. No run can record either kind of row, so the report of every arm balances (`RealRun`).
- **Plan staging.** The clean scan covers the plan but not the goal, part of which is staged beside it:
  `StagedPlanWasScanned` says what it covers, `GoalIsStagedUnscanned` that it covers no more.

## Model

| member | source | states |
|---|---|---|
| `PilotLedger.Ledger.constructor` | scripts/working_context_pilot_fixtures.py:120-122 | a new ledger is empty and its balances are the sums of its postings |
| `PilotLedger.Ledger.Apply` | scripts/working_context_pilot_fixtures.py:123-141 | a batch is accepted exactly when every event is well formed and no id is used for two postings, counting those already seen; a refused batch changes nothing and names the first offence |
| `PilotLedger.RunSucceedsIff` | scripts/working_context_pilot_fixtures.py:125-138 | the step-by-step run succeeds exactly under the order-free condition on the whole batch |
| `PilotLedger.ConsistentMeans` | scripts/working_context_pilot_fixtures.py:125-138 | that condition, in the fields of the events: ids and accounts are nonempty strings, amounts integers, and one id means one account and amount |
| `PilotLedger.RaisedMeans` | scripts/working_context_pilot_fixtures.py:125-138 | a refused batch has a first offending event, the events before it are accepted, and its fields give the reason |
| `PilotLedger.RunRecords` | scripts/working_context_pilot_fixtures.py:134-139 | after a successful batch `seen` holds exactly the old postings and those of the events |
| `PilotLedger.RunPosts` | scripts/working_context_pilot_fixtures.py:134-139 | the same by id, account and amount: exactly what the events post is added |
| `PilotLedger.RunBalanced` | scripts/working_context_pilot_fixtures.py:112-115 | a batch keeps the invariant: the accounts of `balances` are those of `seen`, and each balance is the sum of its postings |
| `PilotLedger.HistoryBalanced` | scripts/working_context_pilot_fixtures.py:109-116 | after any history of successful and failed batches the invariant holds, and no posting is ever lost or changed |
| `PilotLedger.Confluence` | scripts/working_context_pilot_fixtures.py:112-115 | two batches with the same events, in any order and with any repetition, succeed together and end in the same books |
| `PilotLedger.RunConcat` | scripts/working_context_pilot_fixtures.py:125-140 | running a concatenation is running its parts in turn, errors included |
| `PilotLedger.SplitRun` | scripts/working_context_pilot_fixtures.py:123-141 | a batch that succeeds succeeds in any split into successive batches, with the same books |
| `PilotLedger.ReplaySafe` | scripts/working_context_pilot_fixtures.py:112-115 | once a batch succeeds, every reordering, duplication and split of it succeeds and ends in the same books |
| `PilotIntervals.NormalizeIntervals` | scripts/working_context_pilot_fixtures.py:202-218 | accepts exactly the lists of integer pairs `(a, b)` with `a <= b`; its result is sorted and disjoint, `x` is covered iff some `a <= x < b`, and `x-1`, `x` lie in one result interval iff they lie in one input pair; otherwise raises for the first bad item |
| `PilotIntervals.MergeSorted` | scripts/working_context_pilot_fixtures.py:212-218 | the merging loop turns the valid pairs into their normal form, updating the last interval in place |
| `PilotIntervals.AbsorbShape` | scripts/working_context_pilot_fixtures.py:214-217 | merging one more interval changes neither which integers are covered nor which neighbours are joined |
| `PilotIntervals.CanonicalUnique` | scripts/working_context_pilot_fixtures.py:194-199 | a canonical list is determined by what it covers and joins |
| `PilotIntervals.OrderAndRepetitionDoNotMatter` | scripts/working_context_pilot_fixtures.py:194-199 | inputs with the same pairs, in any order and with any repetition, have the same normal form |
| `PilotIntervals.NormalFormIsFixed` | scripts/working_context_pilot_fixtures.py:194-199 | normalising a canonical list gives that list and nothing else |
| `PilotCache.Cache.constructor` | scripts/working_context_pilot_fixtures.py:35-37 | a new cache is empty |
| `PilotCache.Cache.Put` | scripts/working_context_pilot_fixtures.py:38-42 | overwrites with the deadline, keeps forever without a ttl, removes for a ttl of zero or less; touches no other key |
| `PilotCache.Cache.Get` | scripts/working_context_pilot_fixtures.py:43-50 | answers the live value or the default, and drops the key exactly when it has expired |
| `PilotCache.Cache.Purge` | scripts/working_context_pilot_fixtures.py:51-56 | removes exactly the entries whose deadline has passed and returns their number |
| `PilotCache.CacheRefinesIdealMap` | scripts/working_context_pilot_fixtures.py:34-56 | under a nondecreasing clock every interleaving of calls gets the answers of a map that never evicts |
| `PilotCache.GetSeesLatestPut` | scripts/working_context_pilot_fixtures.py:25-31 | a get answers the latest put of its key, until that put's deadline, whatever happened in between |
| `PilotCache.PurgesAreInvisible` | scripts/working_context_pilot_fixtures.py:51-56 | adding or removing purges anywhere changes no answer |
| `PilotCache.RefinesExactlyWhenClockIsMonotone` | scripts/working_context_pilot_fixtures.py:34-56 | for given clock readings, all call sequences from all stores agree with the ideal map iff the readings do not go back |
| `PilotCache.ClockGoesBack` | scripts/working_context_pilot_fixtures.py:43-50 | for every clock that goes back, a store and calls on which the cache forgets what the ideal map returns |
| `Telemetry.ScanKey` | scripts/run_external_eval.py:849-866 | the backward loop terminates and is the recursive scan of all positions |
| `Telemetry.ReadNumber` | scripts/run_external_eval.py:854-865 | collects the longest accepted prefix after the colon and the white space around it |
| `Telemetry.Extract` | scripts/run_external_eval.py:843-867 | returns the reading of the first key whose scan finds one, or nothing if none does |
| `Telemetry.ExtractCost` | scripts/run_external_eval.py:843-867 | for the first of total_cost_usd, cost_usd and total_cost that shows one, the last number shown: the whole text over `0123456789.-e+` after the quoted key, a colon and any white space |
| `Telemetry.ExtractInt` | scripts/run_external_eval.py:885-902 | the same for the digits after any plain key; for arbitrary keys, what the scan finds |
| `Telemetry.ExtractTokenUsage` | scripts/run_external_eval.py:870-882 | each token count is the last number shown for the first of its keys that shows one |
| `Telemetry.RFindIsLast` | scripts/run_external_eval.py:851 | the search finds the last occurrence that ends at or before the bound |
| `Telemetry.OverlapSharesOneQuote` | scripts/run_external_eval.py:849-866 | two overlapping markers share only a quote, so the text after the earlier one starts with the key |
| `Telemetry.NumberEndsAtQuote` | scripts/run_external_eval.py:854-865 | whether a number follows is decided before the next quote |
| `Telemetry.NumberIsShown` | scripts/run_external_eval.py:854-865 | the code reads a value after a marker exactly when white space, a colon, white space and a maximal text that parses as it follow |
| `Telemetry.NumeralIsRead` | scripts/run_external_eval.py:885-902 | an output with `"key" : n`, whatever the white space, the text before it and what follows the digits, is read as `n`, if the key does not occur later nor an earlier key at all |
| `Telemetry.TextIsRead` | scripts/run_external_eval.py:843-867 | the same for any number text, such as a cost: all of it, and nothing else, is parsed |
| `Telemetry.ScanFindsLast` | scripts/run_external_eval.py:849-866 | the scan returns the last reading of its key, if the key is not itself a reading |
| `Telemetry.SkippedReading` | scripts/run_external_eval.py:851-866 | for every key that is itself a reading, an output with a reading that the scan misses |
| `Telemetry.ScanIsExactWhen` | scripts/run_external_eval.py:849-866 | the scan is exact on all outputs iff the key is not itself a reading |
| `Telemetry.BenchmarkKeysArePlain` | scripts/run_external_eval.py:843-882 | no key of the benchmarks contains a quote or starts like a number |
| `Telemetry.PlainKeysSuffice` | scripts/run_external_eval.py:843-902 | for plain keys the scans return the last well-formed occurrence of the first key that has one |
| `Telemetry.NumeralRoundTrip` | scripts/run_external_eval.py:892-901 | every natural number written in decimal is read back |
| `PyText.AsciiSpaces` | scripts/run_external_eval.py:853-855 | which ASCII characters count as white space |
| `FailureTaxonomy.Taxonomy` | scripts/run_external_eval.py:1346-1366 | the buckets are exactly the causes that occur, each with its number of rows |
| `FailureTaxonomy.CausesMean` | scripts/run_external_eval.py:1346-1366 | which rows are in which bucket, in the fields of the row |
| `FailureTaxonomy.TallyCounts` | scripts/run_external_eval.py:1346-1366 | a bucket's count is the number of rows in it |
| `FailureTaxonomy.ArmTaxonomy` | scripts/run_ablations.py:1048-1070 | the same for an arm: status buckets and the external buckets of the remaining rows, added up |
| `FailureTaxonomy.ExternalAccounting` | scripts/run_external_eval.py:1182-1216 | rows = usable passes + the sum of all buckets, for all rows |
| `FailureTaxonomy.ArmAccounting` | scripts/run_ablations.py:1085-1129 | rows + rows counted twice = passes + the sum of all buckets + rows in no bucket, for all rows |
| `FailureTaxonomy.ArmErrorsHaveText` | scripts/run_ablations.py:475-580 | whatever an arm's command does, an error that is reported has a text |
| `FailureTaxonomy.OutcomeMeans` | scripts/run_ablations.py:475-580 | exactly when an arm's exit code and output make an infrastructure failure, markers included, and which cost is kept |
| `FailureTaxonomy.RunCellSound` | scripts/run_ablations.py:615-689 | every row of `run_cell` is accounted for exactly once; it is infra iff it has an error; it passed iff the verifier said so and no test was edited; every other field by case |
| `FailureTaxonomy.SoundRowsBalance` | scripts/run_ablations.py:1085-1129 | for rows that are each accounted for once, cells = passed + the sum of all buckets |
| `PassRates.ByTask` | scripts/run_external_eval.py:1369-1373 | each task that occurs is mapped to its outcomes, in row order |
| `PassRates.MeanOver` | scripts/run_external_eval.py:1369-1376 | the mean of a weight over the tasks, whatever order they are visited in |
| `PassRates.Rates` | scripts/run_external_eval.py:1388-1394 | a rate for exactly the tasks with a usable trial of the condition: its passing usable trials divided by its usable trials |
| `PassRates.PassHatK` | scripts/run_external_eval.py:1369-1376 | nothing without rows; otherwise the number of tasks all of whose rows passed, divided by the number of tasks |
| `PassRates.PassHatKBounds` | scripts/run_external_eval.py:1369-1394 | with at most K trials a task and mean rate p, `1 - K*(1-p) <= pass^k <= p` |
| `PassRates.PassHatKRange` | scripts/run_external_eval.py:1374-1376 | pass^k lies in [0, 1] and is 1 iff no task fails a trial |
| `PassRates.AllTasksPass` | scripts/run_external_eval.py:1369-1376 | pass^k of the grouped rows is 1 iff every single row passed |
| `AblationGrid.ExecuteGrid` | scripts/run_ablations.py:761-798 | one row a cell; executed rows form a prefix and spend was below the ceiling before each of them; the rest are budget-stopped and spend had reached the ceiling; the total cost is given iff some executed cell reported one |
| `AblationGrid.StopIsDetermined` | scripts/run_ablations.py:761-798 | that description leaves no freedom: stopping point and rows are determined |
| `AblationGrid.NothingReported` | scripts/run_ablations.py:780-798 | no cell reported a cost iff every cost is absent |
| `AblationGrid.SpentIsTheSum` | scripts/run_ablations.py:780-798 | what was spent is the sum of the reported costs, an absent one adding nothing, and the reported cells are the rows with a cost |
| `AblationGrid.RowsOfCellsNotRun` | scripts/run_ablations.py:718-745 | rows of stopped and skipped cells have neither cost nor pass nor error and keep their cell |
| `AblationGrid.GridCellsOnce` | scripts/run_ablations.py:697-715 | the unshuffled plan holds every task, active arm and trial exactly once |
| `AblationGrid.SkippedArmRows` | scripts/run_ablations.py:1409-1416 | the nested loops add one skipped row for each planned triple of each inactive arm |
| `AblationGrid.SkippedCellsOnce` | scripts/run_ablations.py:1409-1416 | these are every task, inactive arm and trial exactly once |
| `AblationGrid.PlannedGridIsComplete` | scripts/run_ablations.py:697-715 | after any shuffle, planned and skipped cells together are every task, arm and trial exactly once |
| `AblationGrid.RecordAll` | scripts/run_ablations.py:1395-1416 | for any cell runner, the rows of a whole run, executed, stopped and skipped, are every task, arm and trial exactly once, and each is accounted for once if the executed ones are |
| `AblationGrid.RealRunnerIsFaithful` | scripts/run_ablations.py:615-689 | `run_cell` records the cell it was given, never as budget-stopped or dry, and accounted for once |
| `AblationGrid.RealRun` | scripts/run_ablations.py:1048-1116 | for every real run, whatever agents and verifier do, each executed row is that of an attempt at its own cell, and cells = passed + the sum of all buckets in the report of each arm |
| `Arena.Ledger.EnsureModel` | src/oh_no_my_claudecode/arena/elo.py:221-225 | returns the model's own record, creating a fresh unplayed one only for a new name |
| `Arena.Ledger.ApplyBout` | src/oh_no_my_claudecode/arena/elo.py:228-250 | side A gains and B loses `k*(1 - e)`, `-k*e` or `k*(1/2 - e)` as A wins, loses or draws, with `e` A's expected score from the ratings so far, 1000 for a newcomer; tallies and histories grow by the bout; no other record changes; one record meets itself twice |
| `Arena.AppliedBooks` | src/oh_no_my_claudecode/arena/elo.py:167-250 | the same of the specification the fold is proved against |
| `Arena.Ledger.BookResult` | src/oh_no_my_claudecode/arena/elo.py:233-250 | booking a result changes the one or two records involved and no other |
| `Arena.UpdateRecords` | src/oh_no_my_claudecode/arena/elo.py:235-250 | the in-place updates: two records are each played once, one aliased record is played twice, side A first |
| `Arena.BuildLedger` | src/oh_no_my_claudecode/arena/elo.py:253-278 | the ledger of the log, folded from the empty one |
| `Arena.LedgerGrows` | src/oh_no_my_claudecode/arena/elo.py:253-278 | one more bout leaves the ledger alone if a name is missing, and is booked as above otherwise |
| `Arena.UpdateConserves` | src/oh_no_my_claudecode/arena/elo.py:167-213 | a bout moves rating between its sides without creating any |
| `Arena.WinnerGains` | src/oh_no_my_claudecode/arena/elo.py:167-213 | for positive K a winner gains and a loser loses at any ratings, and an even draw changes nothing |
| `Arena.DrawFavoursTheWeaker` | src/oh_no_my_claudecode/arena/elo.py:203-213 | for positive K a draw raises exactly the side expected to score below one half |
| `Arena.SelfBout` | src/oh_no_my_claudecode/arena/elo.py:228-250 | a model against itself ends K/2 up when "B" won, K/2 down when "A" won, unchanged on a draw |
| `Arena.FoldedLedger` | src/oh_no_my_claudecode/arena/elo.py:253-278 | folding onto any ledger moves the rating total only by the self-bout credits, and keeps every record accounted for |
| `Arena.LedgerConservesRating` | src/oh_no_my_claudecode/arena/elo.py:253-278 | ratings sum to 1000 a model plus K/2 a net self-bout win of "B"; every record has bouts = wins + losses + draws = history length, ends its history in its rating and lies within K times bouts of 1000 |
| `Arena.TalliesCountTheLog` | src/oh_no_my_claudecode/arena/elo.py:228-278 | wins, losses and bouts of each record count the log, and exactly the models that played have one |
| `Arena.SidesDoNotMatter` | src/oh_no_my_claudecode/arena/elo.py:228-278 | swapping the sides of any bout between distinct models leaves the ledger unchanged |
| `Arena.RankingIsUnique` | src/oh_no_my_claudecode/arena/elo.py:281-300 | the leaderboard is by rating, highest first, then by name, and does not depend on the order of the records |
| `CanonicalJson.ReadEscape` | src/oh_no_my_claudecode/attest/attest.py:105-112 | every escaped UTF-16 unit is read back, whatever follows, and is no closing quote |
| `CanonicalJson.EncodingLooksLike` | src/oh_no_my_claudecode/attest/attest.py:105-112 | keys are sorted, separators have no space, and constants are those of JSON |
| `CanonicalJson.EscapesLookLike` | src/oh_no_my_claudecode/attest/attest.py:105-112 | the short escapes are those of section 7 of RFC 8259, and printable ASCII stands for itself |
| `CanonicalJson.OtherEscapes` | src/oh_no_my_claudecode/attest/attest.py:105-112 | everything else is written as a backslash, a u and four digits |
| `CanonicalJson.HexLooksLike` | src/oh_no_my_claudecode/attest/attest.py:105-112 | which are lower-case hexadecimal |
| `CanonicalJson.CanonicalRoundTrip` | src/oh_no_my_claudecode/attest/attest.py:105-112 | reading the encoding back gives the sorted claim |
| `CanonicalJson.QuoteIsExactlyUtf16` | src/oh_no_my_claudecode/attest/attest.py:105-112 | two strings are quoted alike iff their UTF-16 forms agree |
| `CanonicalJson.Utf16Injective` | src/oh_no_my_claudecode/attest/attest.py:105-112 | which on Unicode scalar values is equality |
| `CanonicalJson.SurrogatePairCollides` | src/oh_no_my_claudecode/attest/attest.py:105-112 | and outside them is not |
| `CanonicalJson.CanonicalIsExactlyWire` | src/oh_no_my_claudecode/attest/attest.py:105-112 | any two claims encode alike iff their sorted items agree in UTF-16 |
| `CanonicalJson.CanonicalIgnoresOrder` | src/oh_no_my_claudecode/attest/attest.py:53-89 | the encoding does not depend on the insertion order of the keys |
| `CanonicalJson.CanonicalInjective` | src/oh_no_my_claudecode/attest/attest.py:105-112 | claims of Unicode scalar values encode alike iff they are the same dictionary |
| `Attestations.DictRoundTrip` | src/oh_no_my_claudecode/attest/attest.py:192-220 | the dictionary form returns the attestation iff subject and algorithm are not empty; the other fields always survive |
| `Attestations.MissingFields` | src/oh_no_my_claudecode/attest/attest.py:204-220 | what the fields missing from a dictionary default to |
| `Attestations.AttestationTellsTheReceipt` | src/oh_no_my_claudecode/attest/attest.py:53-156 | the claim is the seven entries made from the receipt's own fields: verified iff that field is true or a nonempty string, each hash null iff missing or None, subject, goal and time with their fallbacks; signed with the first nonempty secret, else hashed |
| `Attestations.BuiltAttestationVerifies` | src/oh_no_my_claudecode/attest/attest.py:223-292 | whatever is built verifies under the same secret, survives its dictionary form, and is signed iff a secret resolves; building fails only for a secret that cannot be encoded |
| `Attestations.VerifyAnswersExactlyWhen` | src/oh_no_my_claudecode/attest/attest.py:252-292 | verification answers iff a keyed signature has no key, or the key has an encoding and the signature is ASCII; it answers true iff the signature is then the seal of the claim; a digest is verified alike under any secret |
| `Attestations.VerifyRaises` | src/oh_no_my_claudecode/attest/attest.py:204-292 | a dictionary whose only entry is a signature with an accented letter, and a secret that is a lone surrogate, make it raise |
| `Attestations.TamperedClaimNeedsCollision` | src/oh_no_my_claudecode/attest/attest.py:252-292 | a changed claim verifies iff its encoding, a different text for a different claim, has the same MAC or hash |
| `Attestations.PayloadFixesTheReceipt` | src/oh_no_my_claudecode/attest/attest.py:53-112 | two receipts of Unicode scalar values have the same signed payload iff their fields say the same: who, what for, when, each hash and whether it was verified |
| `Attestations.ClaimOfIsDict` | src/oh_no_my_claudecode/attest/attest.py:81-89 | a distilled claim has distinct keys |
| `Attestations.CanonicalClaimIsScalar` | src/oh_no_my_claudecode/attest/attest.py:53-102 | it holds Unicode scalar values whenever the receipt's strings do |
| `Achievements.LevelFromXp` | src/oh_no_my_claudecode/achievements/achievements.py:252-264 | from any starting level the correction loops end in the level with T(L) <= xp < T(L+1) |
| `Achievements.LevelWidth` | src/oh_no_my_claudecode/achievements/achievements.py:246-249 | level L is 10*L wide |
| `Achievements.DocumentedCurveIsOneLevelOn` | src/oh_no_my_claudecode/achievements/achievements.py:33-35 | the documented formula is the start of the next level; level 2 starts at 10 and not 30 |
| `Achievements.LevelIsMonotone` | src/oh_no_my_claudecode/achievements/achievements.py:252-264 | more xp never means a lower level, and the level of an xp is unique |
| `Achievements.LevelProgress` | src/oh_no_my_claudecode/achievements/achievements.py:397-399 | progress into a level is not negative, the rest is positive, and they sum to its width |
| `Achievements.CurrentStreak` | src/oh_no_my_claudecode/achievements/achievements.py:272-280 | the longest all-verified suffix |
| `Achievements.LongestStreak` | src/oh_no_my_claudecode/achievements/achievements.py:283-293 | the maximum length of all-verified windows; it bounds the current streak |
| `Achievements.UndatedReceiptsExtendTheStreak` | src/oh_no_my_claudecode/achievements/achievements.py:218-228 | what undated receipts do to the current streak: all verified they extend that of the dated ones, otherwise they replace it; they are counted iff the last one is verified |
| `Achievements.LongestOfConcat` | src/oh_no_my_claudecode/achievements/achievements.py:283-293 | the longest window of two parts lies in one of them or is the run that joins them |
| `Achievements.UndatedReceiptsInTheLongestStreak` | src/oh_no_my_claudecode/achievements/achievements.py:218-228 | the longest streak is unchanged by undated receipts iff neither their own longest run nor the run joining them to the dated ones is longer |
| `Achievements.UndatedReceiptStartsAStreak` | src/oh_no_my_claudecode/achievements/achievements.py:218-228 | one undated verified receipt makes a streak of 1 where the dated receipts have 0 |
| `Achievements.ComputeBadges` | src/oh_no_my_claudecode/achievements/achievements.py:334-376 | each badge is stamped by the first dated receipt at which its check holds, or locked if there is none |
| `Achievements.StampIsOfTheFirst` | src/oh_no_my_claudecode/achievements/achievements.py:306-376 | unlocked iff the dated receipts hold a pass, a pass in one iteration, ten passes in a row, or 25 passes; the stamp is the time of the receipt at which that first held |
| `Achievements.UnlockedExactlyWhenDeserved` | src/oh_no_my_claudecode/achievements/achievements.py:306-376 | the same through the running facts of the loop |
| `Achievements.NewerReceiptsKeepBadges` | src/oh_no_my_claudecode/achievements/achievements.py:334-376 | receipts that are not older than those already there never relock or restamp a badge |
| `Achievements.BuildReport` | src/oh_no_my_claudecode/achievements/achievements.py:384-416 | the totals are the numbers of verified and one-shot receipts, xp is 10 and 5 for each, the level L has `5L(L-1) <= xp < 5L(L+1)`; the streaks are the trailing and the longest run in order; a badge is stamped iff the dated receipts earn it, with the time of the first that did |
| `Achievements.OrderIsByTime` | src/oh_no_my_claudecode/achievements/achievements.py:218-228 | the receipts are reordered, not changed: the dated ones by time, then the others |
| `CommandRegistry.SortedKeysMeaning` | src/oh_no_my_claudecode/command_registry.py:144-152 | the collision list is sorted, without repetition, and holds exactly the names meant |
| `CommandRegistry.NoDuplicatesMeansDistinct` | src/oh_no_my_claudecode/command_registry.py:144-152 | no duplicates are reported iff the registered names are distinct |
| `CommandRegistry.App.RegisterFeatureCommands` | src/oh_no_my_claudecode/command_registry.py:155-238 | names, guard, features run and result are those of the specification; the guard is stamped only by a normal return, then the old guard plus the returned list |
| `CommandRegistry.StrictCallIsSoundExactlyWhen` | src/oh_no_my_claudecode/command_registry.py:155-238 | from distinct names, a strict call returns normally iff no name is then duplicated, exactly when it raises or each feature that registered repeated no name and each that raised left none repeated |
| `CommandRegistry.FinalNames` | src/oh_no_my_claudecode/command_registry.py:196-234 | after a strict call the names are distinct iff it returned normally and each turn was clean; a raise always leaves a repeated name |
| `CommandRegistry.StrictCallIsSound` | src/oh_no_my_claudecode/command_registry.py:155-238 | so features that never repeat a name or raise after adding keep the promise, whatever the app and the guard |
| `CommandRegistry.RepeatWithinFeatureIsMissed` | src/oh_no_my_claudecode/command_registry.py:217-232 | a name repeated within one feature passes a strict call |
| `CommandRegistry.ThrowAfterAddingIsMissed` | src/oh_no_my_claudecode/command_registry.py:196-216 | so does a colliding name added before a feature raises |
| `CommandRegistry.GuardIsRespected` | src/oh_no_my_claudecode/command_registry.py:192-234 | no feature in the guard is run or recorded, and what is recorded was run, once |
| `CommandRegistry.OneFeatureMore` | src/oh_no_my_claudecode/command_registry.py:192-234 | what one more feature adds, records and raises, strict or not, given the outcome of those before it; a strict collision names exactly the names that were there, sorted |
| `CommandRegistry.LenientNeverRaises` | src/oh_no_my_claudecode/command_registry.py:223-234 | a call that is not strict never raises |
| `CommandRegistry.RecordedInOrder` | src/oh_no_my_claudecode/command_registry.py:192-238 | features found in sorted order are recorded in sorted order |
| `CommandRegistry.SecondCallRunsNothingRecorded` | src/oh_no_my_claudecode/command_registry.py:192-238 | a second call, whatever the features are by then, runs none that the first recorded |
| `CliReference.Discovery.DiscoverCommands` | scripts/generate-cli-reference.py:29-59 | the root, then for each path of the walk an entry with that path and the title that spells it, the program and each argument after a space |
| `CliReference.Discovery.WalkNode` | scripts/generate-cli-reference.py:45-56 | the nested walk appends exactly the paths below its node to the shared list |
| `CliReference.WalkPaths` | scripts/generate-cli-reference.py:45-56 | a path is emitted iff following its names leads to a node |
| `CliReference.WalkIncreases` | scripts/generate-cli-reference.py:45-56 | the paths come in strictly increasing lexicographic order |
| `CliReference.DiscoveryIsComplete` | scripts/generate-cli-reference.py:29-59 | exactly the nodes below the root, each once, increasing, every group before its subcommands |
| `Approvals.PlanApproval` | src/oh_no_my_claudecode/approve/executor.py:159-217 | the plan of the specification: every eligible unit has a line that is verified and not held, and other actions approve and refuse nothing |
| `Approvals.ApproveAllSplitsTheCard` | src/oh_no_my_claudecode/approve/executor.py:202-217 | "approve all" puts each unit line in exactly one half, by eligibility, losing and repeating none |
| `Approvals.PlanDecidesEachUnit` | src/oh_no_my_claudecode/approve/executor.py:159-217 | on a card that lists each unit once, a unit is eligible iff it is verified and unheld, refused iff it is listed and is not; a per-unit approval decides its target and nothing else, refusing an unlisted one as not found |
| `Approvals.RefusalsHaveReasons` | src/oh_no_my_claudecode/approve/executor.py:146-156 | every refusal of a listed unit is for a line that is unverified or held, and gives that line's reason |
| `Approvals.ClearedMeans` | src/oh_no_my_claudecode/approve/commands.py:78-107 | a pull request is landed exactly when the unit's first line on the re-read card is verified, not held and has its URL |
| `Approvals.Run.RealMerger` | src/oh_no_my_claudecode/approve/commands.py:69-117 | lands only the pull request that a fresh reading of the card clears, always when it clears one, and reports success iff the landing merged |
| `Approvals.Run.ExecutePlan` | src/oh_no_my_claudecode/approve/executor.py:234-272 | a dry run calls nothing; a real run is one merger call for each eligible unit, in order, up to the first exception; each reported outcome is success iff that unit's own call ended in a merge; every landing is justified on both cards |
| `Approvals.Run.Approve` | src/oh_no_my_claudecode/approve/commands.py:184-203 | the same for the whole command, planned on the card it reads first; a real per-unit approval exits with 0 iff what it did is the merge of the target's cleared pull request, and else merged nothing |
| `Approvals.MergerTurn` | src/oh_no_my_claudecode/approve/commands.py:78-107 | a merger call keeps the trace safe whatever the state has become, and is one call |
| `Approvals.ExitCodeMeans` | src/oh_no_my_claudecode/approve/commands.py:225-236 | a real run exits with 2 iff a targeted unit was refused, and with 0 iff not so and the call of every eligible unit ended in a merge |
| `Approvals.ExitZeroMeansMerged` | src/oh_no_my_claudecode/approve/commands.py:225-236 | a real per-unit approval exits with 0 iff its effects are one call for the target, a reading that clears its pull request, and the merge of it; otherwise no landing merged |
| `Sarif.FindingsToSarif` | src/oh_no_my_claudecode/audit/sarif.py:89-113 | the loop with its dictionary and index gives the specification's document |
| `Sarif.DocumentAgrees` | src/oh_no_my_claudecode/audit/sarif.py:56-176 | rules strictly sorted and exactly those of the findings, each with the fields of its first; results are the findings in order of rule, severity, file and line, each with its own fields and level, and a `ruleIndex` that points at its own rule |
| `Sarif.OrderDoesNotShowExactlyWhen` | src/oh_no_my_claudecode/audit/sarif.py:65-113 | every order of the findings gives the same document iff findings with equal sort keys give the same result and, where no finding of their rule has a smaller key, the same rule |
| `Sarif.HarmlessTie` | src/oh_no_my_claudecode/audit/sarif.py:89-113 | tied findings with different rules do not show behind a smaller finding of the rule |
| `Sarif.OrderDoesNotMatter` | src/oh_no_my_claudecode/audit/sarif.py:65-113 | in particular, when findings with equal sort keys look alike |
| `Sarif.SwapShowsExactlyOnTies` | src/oh_no_my_claudecode/audit/sarif.py:89-113 | for two findings alone: swapping them shows iff they tie and do not look alike |
| `Sequences.SortTiedPair` | src/oh_no_my_claudecode/audit/sarif.py:93-95 | the sort is stable: tied elements come out in the order given, side by side when they were in front |
| `Autopilot.StampingIsIdempotent` | src/oh_no_my_claudecode/hooks/prompt_recall.py:93-110 | every origin gets the unpromoted prefix before its own text, or "unknown"; stamping twice is stamping once |
| `Autopilot.Session.RecordWinMemory` | src/oh_no_my_claudecode/autopilot/orchestrator.py:309-363 | one scan of goal and summary, then at most one write, of exactly that memory under an unpromoted reference; returns how many were written and reports what kept it out |
| `Autopilot.Session.StoreSkill` | src/oh_no_my_claudecode/storage/sqlite.py:1474-1492 | storing adds the skill only under a new id and alters no other |
| `Autopilot.Session.StoreCandidates` | src/oh_no_my_claudecode/autopilot/orchestrator.py:395-409 | each candidate is tried once, inactive and in order; a failed write is reported, an existing skill is left alone; those stored are returned |
| `Autopilot.Session.PromoteSkillsInactive` | src/oh_no_my_claudecode/autopilot/orchestrator.py:366-421 | no stored skill is altered, every new one is inactive, and the name returned is that of the first stored, or none iff nothing was stored |
| `Autopilot.Session.RunLearn` | src/oh_no_my_claudecode/autopilot/orchestrator.py:259-306 | nothing at all without convergence; with learning off one report and no write; otherwise memory, skills and consolidation in turn, each step failing on its own; the count returned is that of the memory writes |
| `Autopilot.Session.StagePlanForReview` | src/oh_no_my_claudecode/autopilot/orchestrator.py:460-519 | reads the switch, then scans the plan, then stages a proposal of the beginnings of goal and plan, in that order; the first obstacle ends it with a report |
| `Autopilot.Session.RunPlan` | src/oh_no_my_claudecode/autopilot/orchestrator.py:424-457 | calls the planner once; a plan it returns is not empty and went through staging first |
| `Autopilot.Session.RunAutopilot` | src/oh_no_my_claudecode/autopilot/orchestrator.py:522-743 | every run keeps the trust rules, also when it raises; a dry run leaves exactly the four reading effects; a run that returns leaves KNOW, PLAN, ACT and LEARN in order, and its captured count is that of its trace |
| `Autopilot.EveryEffectWasAllowed` | src/oh_no_my_claudecode/autopilot/orchestrator.py:22-40 | in a safe trace each effect was allowed by the rules at its own moment |
| `Autopilot.MemoriesAreGated` | src/oh_no_my_claudecode/autopilot/orchestrator.py:309-363 | every memory written is unpromoted, follows a converged loop, a clean scan of its text and an enabled latest reading of the switch |
| `Autopilot.SkillsAndPlansAreGated` | src/oh_no_my_claudecode/autopilot/orchestrator.py:366-519 | every skill written is inactive and follows a converged loop; every staged plan was scanned clean and precedes the loop; every write follows an enabled latest reading of the switch; no loop, planner or staging call follows a loop |
| `Autopilot.SwitchedOffMeansNoWrites` | src/oh_no_my_claudecode/autopilot/orchestrator.py:259-288 | a run in which the switch never reads enabled writes nothing |
| `Autopilot.CapturedCountsMemoryWrites` | src/oh_no_my_claudecode/autopilot/orchestrator.py:713-722 | the captured count of a trace is the number of its successful memory writes |
| `Autopilot.LostWinsAreReported` | src/oh_no_my_claudecode/autopilot/orchestrator.py:259-363 | learning only adds to the trace, captures only after a converged loop, and a win that leaves no memory is always reported |
| `Autopilot.WinWritesItsMemory` | src/oh_no_my_claudecode/autopilot/orchestrator.py:309-363 | the only memory a win may write is its own |
| `Autopilot.WinMemoryReads` | src/oh_no_my_claudecode/autopilot/orchestrator.py:326-352 | which is a decision that quotes the beginnings of the goal and of the winning action, under an unpromoted reference |
| `PyText.TakeIsPrefix` | src/oh_no_my_claudecode/autopilot/orchestrator.py:326-352 | a slice is the longest prefix within its length |
| `Autopilot.LostPlansAreReported` | src/oh_no_my_claudecode/autopilot/orchestrator.py:460-519 | a plan is reported iff it was not staged |
| `Autopilot.StagedPlanWasScanned` | src/oh_no_my_claudecode/autopilot/orchestrator.py:476-507 | of a staged proposal the clean scan covers exactly the end of the summary, the beginning of a plan scanned clean before; the rest is the goal and fixed text |
| `Autopilot.GoalIsStagedUnscanned` | src/oh_no_my_claudecode/autopilot/orchestrator.py:476-507 | whatever the goal holds, a clean plan is staged with it though nothing but the plan was scanned |
| `Autopilot.RunActsOnItsGoal` | src/oh_no_my_claudecode/autopilot/orchestrator.py:646-711 | the loop runs on the goal alone, or on the goal followed by the very plan that went through staging; success is reported iff it converged and its last iteration verified, and a captured memory implies that it converged |

## Left out

- SHA-256 and HMAC: uninterpreted functions of key and payload; only that their hex digests are ASCII is used.
- JSON: claims are flat, with string, boolean or null values. Numbers and nested values are not modelled, nor is the parsing of a receipt file.
- Floating point: ratings, costs, rates and clock readings are reals; `round(..., 4)` is not modelled, and the level seed from a float square root is an arbitrary starting level.
- `_expected`: taken as any curve with values in (0, 1), `e(a,b) + e(b,a) = 1`, hence 1/2 for equal ratings; the logistic formula is not used.
- `random.shuffle`: an arbitrary permutation of the planned cells. Bootstrap intervals, seeds and paired deltas are left out.
- Telemetry: `isdigit` is 0-9, `int` has no limit on digits, and `float` is an arbitrary partial parser.
- Timestamps: an integer or undated; parsing them, and mixing naive with aware ones, is left out.
- Outside calls (agents, git, SQLite, `land`, the swarm state, the memory queue): arbitrary results or exceptions. `onmc`'s hooks, rendering and command line are left out.
- Other readers of the same data (`build_reputation`, loading and appending bouts, markdown and JSON reports): easy sums or formatting.
- PilotLedger.Ledger.Apply: requires the class invariant, which the constructor establishes and every method keeps; fields assigned from outside are not modelled.
- AblationGrid.ExecuteGrid: an exception of the cell runner, which ends the program, is not modelled.
- CommandRegistry.App.RegisterFeatureCommands: how features are found and how Typer derives a command's name are inputs; a feature's `register` is any function of the names so far that adds names; one that removes names is not modelled.
- Approvals.PlanApproval: the explanatory notes of a plan are left out, and parsing a pull-request URL is an arbitrary function.
- Sarif.FindingsToSarif: constant fields and the rule's display name are left out.
- Autopilot.Session.RunAutopilot: token, cost and brain-count fields, and the activation reasons, which only appear in reports, are left out. Agents, planner and consolidation may change stored skills in any way.
- Autopilot.Session.StagePlanForReview: the proposal's reason and id are left out.
