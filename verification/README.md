# A verified model of Agent Trust Discovery

Agent Trust Discovery indexes registered agents, stores signal observations about
them, scores each agent in five dimensions and serves search and detail pages. This
project models the parts whose behaviour is spread over several steps, and proves what
holds over all inputs, all runs and all reachable stores.

- **Store** (`TimeText`, `Calendar`, `Domain`, `Tables`, `History`, `Store`): the SQLite tables as
  state, each statement with its constraints and triggers as a function on tables, and
  transactions as all-or-nothing calls of the class `Store.DB`. `History` proves what
  readers can rely on over every run.
- **Scoring** (`Signals`, `Cascade`, `Scoring`, `ScoringLaws`, `Breakdown`, `Shipped`,
  `Scales`, `Registry`): the engine's map-filling loops are proved against a
  specification that keeps one tally per dimension; the laws are proved about that
  specification for any registry of any signals. `Breakdown` says what an evaluation
  shows without that specification, and `Scales` what each shipped signal says.
- **Import to evaluation** (`Import`, `Producers`, `Detail`): validation in front of
  the store, the verdicts that the hydrator and the prober build, their way through to
  a score, and the detail page over every reachable store.
- **Feed** (`Feed`, `FeedLaws`, `TlEvent`, `Merge`, `Sync`, `Badges`): the paged drain
  of the registration authority's event log, its fold per agent, the merge with
  transparency-log badges, and the rewriting of the fixture directory.
- **Search** (`Like`, `Fts`, `Filters`, `Listing`, `Decimal`, `Tokens`, `Links`,
  `Paging`, `Walks`, `Results`): a structured query compiled to clauses and arguments,
  cut into pages, and walked along its own links. `Results` says what is shown in terms
  of the agents imported and the query as asked.

`Text` holds shared value types and the byte-wise order of text columns, `PageCount`
the page arithmetic that the feed and the search share. Instants are nanoseconds before
or after the first second of the year 0000. An observation's JSON value is
known through what each typed decoder yields for it, None being a decode error. The
full-text matcher and its rank, badge lookups, probe results, the clock and storage
failures are parameters.

Where code and commentary differ, the model follows the code:

- `internal/adapter/sqlitestore/encode.go:41-42` says the tie-break on `obs_id` keeps
  insert order within a second. The unique index lets no two rows of a pair share a
  second, so the first write wins and the tie-break never decides, as
  `docs/openshell-signals.md:77-79` says.
- `internal/scoring/signals/drift.go:66-71` promises that a verdict reporting
  `matched` for divergent values is caught. With an empty observed side it is not: the
  verdict is accepted and scores 100. The exact condition is in
  `Producers.AcceptedHundred`.
- `internal/adapter/sqlitestore/encode.go:37-38` says stored times compare correctly as
  text. A timestamp with an offset can denote an instant whose UTC year is 10000 or -1;
  it is accepted and stored, but its text cannot be parsed again, and that of 10000
  sorts between 1000 and 1001. What reads then return is `History.LatestIsRightExactly`,
  and `Detail.DetailIsServedExactly` and `Walks.WalkShowsTheSelection` say which detail
  pages and walks still work.
- `internal/adapter/sqlitestore/index.go:180-183` and `:219-221` say that a domain
  value is matched literally and that no text is an FTS syntax error. Both fail for
  values holding U+0000, which SQLite takes for the end of the text. The exact
  conditions are `Filters.DomainsAreLiteralExactly` and `Fts.FtsReadsTheFields`.
- `internal/scoring/engine/engine.go:122-124` says a signal of weight 0 contributes
  nothing. It is read all the same, and an unreadable row fails the whole evaluation.
- `internal/scoring/signals/scorecontainer/scorecontainer.go:151-153` says an id with
  fewer than two dots is its own vendor segment. With exactly one dot it is the part
  before the dot (`Scales.VendorOf`).
- `pageTokenDirection` is checked on the way in, has no effect on the search and is
  dropped from every link.

## Model

| member | source | states |
|---|---|---|
| `TimeText.CivilOf` | internal/adapter/sqlitestore/encode.go:43-45 | the calendar fields printed for a whole second are valid and denote exactly that second |
| `TimeText.CivilUnique` | internal/adapter/sqlitestore/encode.go:43-45 | no other valid calendar fields denote that second |
| `Calendar.SecondIsFloor` | internal/adapter/sqlitestore/encode.go:43-45 | truncation is to the whole second at or before the instant |
| `Calendar.DaysOfYears` | internal/adapter/sqlitestore/encode.go:43-45 | years follow the Gregorian rule, stated as a count of days in closed form for every year |
| `Calendar.DaysOfMonths` | internal/adapter/sqlitestore/encode.go:43-45 | the length of every month |
| `Calendar.LayoutOfFields` | internal/adapter/sqlitestore/encode.go:43-45 | a four-digit year is printed as yyyy-mm-ddThh:mm:ssZ |
| `Calendar.TwoIsDecimal` | internal/adapter/sqlitestore/encode.go:43-45 | each two-place field holds two digits of its own value |
| `Text.LessMeans` | internal/adapter/sqlitestore/agentstore.go:185-189 | the order of text columns: the first difference decides, and a beginning comes first |
| `TimeText.TextOrderIsTimeOrder` | internal/adapter/sqlitestore/encode.go:43-45 | for all instants in years 0000 to 9999, byte order of the stored text is chronological order of the truncated instants, equal text means the same second, and the text has 20 characters |
| `TimeText.TextOrderExactly` | internal/adapter/sqlitestore/encode.go:43-45 | for every two instants a timestamp with an offset can denote (UTC years -1 to 10000), the texts sort by time if and only if the instants do not cross from 1001-9999 into 10000 |
| `TimeText.FiveDigitYearSortsEarlier` | internal/adapter/sqlitestore/encode.go:43-45 | counterexample beyond the four-digit years: the first second of 10000 sorts before the last second of 9999 |
| `TimeText.ErasSort` | internal/adapter/sqlitestore/encode.go:43-45 | the text of those years sorts in the order: before 0, up to 1000, 10000, from 1001; which is chronological except between the last two |
| `TimeText.ReadBackExactly` | internal/adapter/sqlitestore/encode.go:47-55 | for every instant, parsing what was written gives the truncated instant back if and only if its UTC year has four digits, and fails otherwise |
| `Tables.FindAgent` | internal/adapter/sqlitestore/agentstore.go:144-154 | finds the first row with the id, or reports that there is none |
| `Tables.Resync` | internal/adapter/sqlitestore/migrations/0001_init.sql:51-59 | the update trigger changes the index rows of that agent and no others |
| `History.LatestIsNewest` | internal/adapter/sqlitestore/agentstore.go:207-241 | the row read for a pair is strictly later than every other row of the pair, so the obs_id tie-break never decides; none is read only when the pair has no rows |
| `History.NewestIsUnique` | internal/adapter/sqlitestore/agentstore.go:207-241 | a row strictly later than all others of its pair is the row that is read |
| `History.RetainedRows` | internal/adapter/sqlitestore/agentstore.go:184-197 | a row survives a prune if and only if its row number is within the limit |
| `History.PruneKeepsLatest` | internal/adapter/sqlitestore/agentstore.go:166-203 | no retention depth ever changes which row is read for any pair |
| `History.PruneKeepsNewest` | internal/adapter/sqlitestore/agentstore.go:166-203 | every kept row of a pair has a stored time that sorts after that of every dropped one |
| `History.PruneKeepsLaterExactly` | internal/adapter/sqlitestore/agentstore.go:166-203 | over every run over the UTC years -1 to 10000, a kept row of a pair was committed with a later instant than a dropped one if and only if the two do not cross from 1001-9999 into 10000 |
| `History.PruneDropsYearTenThousand` | internal/adapter/sqlitestore/agentstore.go:174-203 | counterexample: pruning a pair with one observation from the end of 9999 and a later one from 10000 to one row drops the later one |
| `History.PruneKeepsExactlyK` | internal/adapter/sqlitestore/agentstore.go:166-203 | a prune leaves min(k, rows of the pair) rows of each pair |
| `History.AcceptedMovesLatest` | internal/adapter/sqlitestore/agentstore.go:116-130 | an accepted row becomes what is read exactly when its time is later |
| `History.IgnoredIsNoLater` | internal/adapter/sqlitestore/migrations/0002_observations_dedup.sql:14-15 | an insert ignored as a duplicate is never later than what is already read for its pair |
| `History.AppendOneKeeps` | internal/adapter/sqlitestore/agentstore.go:116-130 | one insert, accepted or ignored as a duplicate, keeps unique keys, known agents and the right answer for every pair |
| `History.AppendAllKeeps` | internal/adapter/sqlitestore/agentstore.go:51-69 | so does a whole committed batch, which leaves the agents alone |
| `History.AppendNeedsOnlyAgents` | internal/adapter/sqlitestore/agentstore.go:51-69 | a batch commits if and only if every agent in it is known, whatever rows are stored |
| `History.UpsertOneKeeps` | internal/adapter/sqlitestore/agentstore.go:73-114 | an upsert keeps the index exact, forgets no agent and touches no observation |
| `History.UpsertAllKeeps` | internal/adapter/sqlitestore/agentstore.go:29-47 | so does a batch: re-importing agents never removes observations |
| `History.BatchNeedsKnownStatuses` | internal/adapter/sqlitestore/migrations/0001_init.sql:10 | a batch of agents is taken if and only if every status is one of the five |
| `History.FailedCallChangesNothing` | internal/adapter/sqlitestore/agentstore.go:29-69 | a call that the database fails, or whose batch is refused, changes nothing |
| `History.UpsertReplaces` | internal/adapter/sqlitestore/agentstore.go:29-47 | a committed batch stores the last entry for each id it names and leaves every other agent alone |
| `History.AgentIsLastImport` | internal/adapter/sqlitestore/agentstore.go:29-47 | over whole runs the record of an id is the last one committed for it, and none exists if and only if none was committed |
| `History.ScanOfStored` | internal/adapter/sqlitestore/agentstore.go:243-277 | a stored agent can be read if and only if both its times have four-digit years |
| `History.GetAgentReadsLastImport` | internal/adapter/sqlitestore/agentstore.go:144-154 | over every run, reading an id gives its last import back field by field, times truncated to the second; it finds nothing if and only if the id was never imported, and fails if and only if a year of that import does not have four digits |
| `History.RowIsLastImport` | internal/adapter/sqlitestore/agentstore.go:73-114 | every stored row is, field by field, the last import of its id |
| `History.IndexHoldsLastImports` | internal/adapter/sqlitestore/migrations/0001_init.sql:33-63 | over every run each imported id has exactly one index row, with the name, texts, tags and capabilities of its last import |
| `History.RunHoldsWholeSeconds` | internal/adapter/sqlitestore/encode.go:43-45 | every reachable row holds whole seconds, so reading it changes nothing |
| `History.RunConsistent` | internal/adapter/sqlitestore/agentstore.go:29-241 | every store reachable by upserts, appends, prunes and failures has unique keys, known agents, exactly one current index row per agent, and answers every reader as the committed log dictates |
| `History.RowsAreCommitted` | internal/adapter/sqlitestore/agentstore.go:116-130 | every stored row of every run is a committed observation with its time printed |
| `History.HistoryIsComplete` | internal/adapter/sqlitestore/migrations/0002_observations_dedup.sql:14-15 | in every run without prunes the rows are exactly the first writes of each pair and second, with all they held |
| `History.AnswersAreUnique` | internal/adapter/sqlitestore/agentstore.go:207-241 | a log dictates one answer only |
| `History.PrunesLeaveTheLog` | internal/adapter/sqlitestore/agentstore.go:174-203 | deleting all prunes from a run changes neither the agents, the index, nor which batches commit |
| `History.PruningIsInvisible` | internal/adapter/sqlitestore/agentstore.go:116-241 | for every run, every reader gets the same answer as in the run without its prunes, even when pruned rows were appended again |
| `History.LatestIsFirstWriteOfNewestSecond` | internal/adapter/sqlitestore/agentstore.go:116-241 | for every run with four-digit years every read succeeds, with the earliest committed observation at the greatest committed whole second of the pair (its time truncated), and with none if and only if none was committed |
| `History.LatestIsRightExactly` | internal/adapter/sqlitestore/agentstore.go:207-241 | for every run over the UTC years -1 to 10000 and every pair: the read is right (the first write of the newest second, or nothing) if and only if the pair has no committed instant in 10000 and, if it has any, one of a four-digit year; it is stale if and only if the pair has instants both in 10000 and in 1001-9999; it fails in all other cases and only then |
| `History.LoneYearTenThousandFails` | internal/adapter/sqlitestore/agentstore.go:227-230 | counterexample: a pair whose only observation is from the year 10000 is stored and every read of it fails |
| `History.YearTenThousandIsNeverRead` | internal/adapter/sqlitestore/agentstore.go:207-241 | counterexample: after an observation from the end of 9999 a later one from 10000 is stored, and readers keep getting the older one |
| `History.NewestSecondIsUnique` | internal/adapter/sqlitestore/agentstore.go:207-241 | "first write of the newest second" names one observation only |
| `Store.DB.UpsertAgentTx` | internal/adapter/sqlitestore/agentstore.go:73-114 | one statement with its triggers: the new tables as a function of the old, unchanged when the status constraint refuses |
| `Store.DB.AppendObservationTx` | internal/adapter/sqlitestore/agentstore.go:116-130 | one insert: first write wins under the unique index; refused for an unknown agent |
| `Store.DB.UpsertAgents` | internal/adapter/sqlitestore/agentstore.go:29-47 | all of the batch or none; the store stays a reachable one, observations untouched, index exact |
| `Store.DB.AppendTx` | internal/adapter/sqlitestore/agentstore.go:51-69 | the transaction: all rows when each is accepted and the commit works, otherwise the tables as before |
| `Store.DB.AppendObservations` | internal/adapter/sqlitestore/agentstore.go:51-69 | all of the batch or none; unique keys and known agents afterwards |
| `Store.DB.PruneObservations` | internal/adapter/sqlitestore/agentstore.go:174-203 | reports the deleted rows, leaves agents and index alone, and changes no reader's answer |
| `Store.DB.LatestObservation` | internal/adapter/sqlitestore/agentstore.go:207-241 | selects the row, parses its time and answers with the observation or the failure; over all calls made so far it is right, and fails, exactly as stated for runs |
| `Store.DB.GetAgent` | internal/adapter/sqlitestore/agentstore.go:144-154 | the record last committed for the id, none if and only if the agent is unknown, and a failure if and only if a stored time cannot be read |
| `Cascade.IterationOrderIsIrrelevant` | internal/scoring/engine/classify.go:24-70 | the cascade gives one answer whatever orders the runtime ranges over the maps in |
| `Cascade.RaisingScoresNeverDemotes` | internal/scoring/engine/classify.go:24-52 | raising scores over the same active dimensions never lowers the recommendation |
| `Cascade.BarsAreExact` | internal/scoring/engine/classify.go:24-52 | with ascending thresholds each recommendation is reached if and only if its own bar is met by every active dimension, FIDUCIARY also needing an active identity above its bar |
| `Scoring.WeightedAverage` | internal/scoring/engine/engine.go:179-191 | the loop computes the rounded quotient of weighted sum and weight, 0 without weight |
| `Scoring.MinInt` | internal/scoring/engine/engine.go:208-216 | returns the least element |
| `Scoring.MassIsWeight` | internal/scoring/engine/engine.go:218-225 | total weight is positive if and only if some signal of the dimension is weighted |
| `Scoring.DedupePreserveOrder` | internal/scoring/engine/engine.go:229-239 | each code once, in order of first occurrence |
| `Text.DedupeMembers` | internal/scoring/engine/engine.go:229-239 | that list has exactly the members of the original, no two alike |
| `Text.DedupePrefix` | internal/scoring/engine/engine.go:229-239 | and keeps first occurrences in their places: appending more codes only appends |
| `Scoring.ListCarriesTally` | internal/scoring/engine/engine.go:111-119 | the score list filed under a dimension carries exactly the dimension's weighted sum and weight |
| `Scoring.CapsAndTally` | internal/scoring/engine/engine.go:125-132 | the caps filed under a dimension have the specified lowest cap |
| `Scoring.Record` | internal/scoring/engine/engine.go:111-132 | one iteration files score, codes and cap under the right dimension, codes and cap only when weighted |
| `Scoring.Gather` | internal/scoring/engine/engine.go:56-133 | the registry loop stops at the first unreadable observation and otherwise fills all maps as specified |
| `Scoring.RollUp` | internal/scoring/engine/engine.go:138-152 | a dimension rolls up to the lower of its mean and its lowest cap |
| `Scoring.RollUpAll` | internal/scoring/engine/engine.go:135-156 | all dimensions, scores and active flags in declared order |
| `Scoring.Evaluate` | internal/scoring/engine/engine.go:50-174 | fails if and only if an observation cannot be read, and otherwise returns the specified evaluation |
| `Breakdown.SoleSignal` | internal/scoring/engine/engine.go:56-133 | a registry of one readable signal: its entry, with clamped score, weight, texts, tier and provenance, is the whole breakdown and its codes all the risk factors, unless it has no observation and declares that this means nothing |
| `Breakdown.BreakdownConcat` | internal/scoring/engine/engine.go:56-156 | signals registered behind others have their entries behind the others in every dimension and their codes with the others; with the previous row this determines every breakdown |
| `Breakdown.EverySignalIsListed` | internal/scoring/engine/engine.go:70-121 | every registered signal is listed under its dimension and, when weighted, has its codes reported, unless it has no observation and declares that this means nothing |
| `Breakdown.ListedExactly` | internal/scoring/engine/engine.go:56-133 | what is listed and reported is exactly what those signals say |
| `Breakdown.ScoreFollowsFromBreakdown` | internal/scoring/engine/engine.go:138-153 | every score is the least of the rounded weighted mean of its listed entries, 0 without weight, and the clamped caps of its weighted signals |
| `Breakdown.VectorFollowsFromBreakdown` | internal/scoring/engine/engine.go:158-173 | the five dimensions in order, each vector component the score of the dimension of its name, and agent, time and profile as given |
| `Breakdown.RecommendationFollowsFromBreakdown` | internal/scoring/engine/engine.go:155-168 | each recommendation is reached if and only if its bar is met by all dimensions that the profile switches on and that list a weighted entry |
| `ScoringLaws.ContributionsSane` | internal/scoring/engine/engine.go:193-205 | clamped scores and caps lie in 0 to 100 whatever the signals return |
| `ScoringLaws.MeanBetween` | internal/scoring/engine/engine.go:176-191 | before caps a dimension lies between its least and greatest weighted raw score, within half a point of the exact mean |
| `ScoringLaws.ScoreIsLowest` | internal/scoring/engine/engine.go:138-152 | a dimension score is the minimum of its rounded mean and all its weighted caps, attained, and within 0 to 100 |
| `ScoringLaws.PermutedTally` | internal/scoring/engine/engine.go:56-156 | a dimension's tally depends on which contributions there are, not on their order |
| `ScoringLaws.RegistrationOrderIsIrrelevant` | internal/scoring/engine/engine.go:50-174 | for every two registration orders there is an evaluation under both or under neither, and trust vector, recommendation and risk-code set are the same |
| `ScoringLaws.TallyImproves` | internal/scoring/engine/engine.go:138-191 | no raw score and no cap down: same weight, no lower weighted sum, no lower cap |
| `ScoringLaws.BetterEvidenceNeverDemotes` | internal/scoring/engine/engine.go:138-191 | then no vector component and no recommendation goes down |
| `ScoringLaws.BetterReadingsNeverDemote` | internal/scoring/engine/engine.go:50-174 | the whole engine is monotone: if no participating signal answers worse, no component drops and the recommendation never drops |
| `ScoringLaws.GateIsDecisive` | internal/scoring/engine/engine.go:125-156 | with one weighted signal capping an enabled dimension below the untrusted bar there is an evaluation if and only if every observation can be read, and it is UNTRUSTED whatever any other signals, before or after it, return |
| `ScoringLaws.AbsentSignalIsNeutral` | internal/scoring/engine/engine.go:70-74 | a signal whose absence means nothing and that has no observation can be inserted anywhere without changing the evaluation at all |
| `ScoringLaws.WeightlessSignalIsNeutral` | internal/scoring/engine/engine.go:56-133 | with a weight-0 signal inserted anywhere there is an evaluation if and only if there is one without it and its own observation can be read; the two then differ only in its own entry in its own dimension |
| `ScoringLaws.EntryIsListed` | internal/scoring/engine/engine.go:111-121 | every signal that takes part has its entry in the breakdown of its dimension |
| `Producers.UnreadableWeightlessSignalFails` | internal/scoring/engine/engine.go:57-60 | counterexample to neutrality without the read: one accepted observation from the year 10000, for a signal of any weight, 0 included, leaves the agent without an evaluation that it has without the signal |
| `Shipped.SanitizeSegment` | internal/scoring/signals/scorecontainer/scorecontainer.go:171-184 | the loop yields a segment of the same length within the code alphabet |
| `Shipped.LastDot` | internal/scoring/signals/scorecontainer/scorecontainer.go:157-167 | the position of the last dot, or none |
| `Scales.VendorOf` | internal/scoring/signals/scorecontainer/scorecontainer.go:157-167 | the vendor of vendor.dimension.name is everything before the last two dots, and of an id with one dot the part before it |
| `Scales.SanitizedCharwise` | internal/scoring/signals/scorecontainer/scorecontainer.go:171-184 | letters are raised, digits and underscores stay, everything else in ASCII becomes an underscore |
| `Scales.ProviderScale` | internal/scoring/signals/scorecontainer/scorecontainer.go:244-286 | an accepted score is passed on with all its codes, plus the low-score code if and only if it is below the threshold, 70 unless configured |
| `Scales.ProviderAccepts` | internal/scoring/signals/scorecontainer/scorecontainer.go:216-237 | the exact condition on score, number, alphabet and prefix of the codes |
| `Scales.Identities` | internal/scoring/signals/drift.go:121-139 | the id of each shipped signal |
| `Scales.Traits` | internal/scoring/signals/agentage.go:32-40 | only the age is derived, only a provider declares absence meaningless, and the dimension of each |
| `Scales.DriftCodes` | internal/scoring/signals/drift.go:121-139 | the code of each drift signal and which of them take fingerprints |
| `Scales.MissingCertScale` | internal/scoring/signals/certtype.go:48-56 | no certificate observation scores 0 and raises the missing-certificate code |
| `Scales.CertTypeScale` | internal/scoring/signals/certtype.go:57-83 | 100, 70, 40 and 0 for EV, OV, DV and none, with the DV code for DV only |
| `Scales.CertTypeAccepts` | internal/scoring/signals/certtype.go:33-44 | exactly the four types are accepted |
| `Scales.DnsScale` | internal/scoring/signals/dnssecurity.go:34-75 | fifty for each of DNSSEC and CAA, and the code if and only if DNSSEC is missing |
| `Scales.AgeScale` | internal/scoring/signals/agentage.go:44-64 | the rounded share of 180 days, 0 for the future, 100 from 180 days on, and new if and only if younger than 45 days |
| `Scales.VersionScale` | internal/scoring/signals/versionstability.go:36-73 | the rounded share of 100 that n changes leave, churn from four on, and negative numbers refused |
| `Scales.DriftScale` | internal/scoring/signals/drift.go:94-117 | 100 if and only if a sealed value is matched, the code if and only if one is not, and the evidence tier of the seal |
| `Scales.DriftAccepts` | internal/scoring/signals/drift.go:72-91 | the exact condition on shape and cross-check |
| `Shipped.ScoreClean` | internal/scoring/signals/scorecontainer/scorecontainer.go:216-286 | an accepted provider score evaluates in range, with every code in the alphabet and under the dimension prefix, the low-score backstop included |
| `Shipped.DriftClean` | internal/scoring/signals/drift.go:94-117 | a decodable drift verdict evaluates without error to 0 or 100 with its own code only |
| `Shipped.AcceptedValuesScore` | internal/scoring/signals/certtype.go:33-83 | for every shipped signal, what its validation accepts its evaluation scores without error, in range and uncapped |
| `Shipped.AgeScoreRises` | internal/scoring/signals/agentage.go:44-64 | the age ramp is monotone and reaches 100 at exactly 180 days |
| `Shipped.StabilityScoreFalls` | internal/scoring/signals/versionstability.go:49-73 | the decay is monotone and only zero changes score 100 |
| `Registry.Registry.Register` | internal/scoring/registry/registry.go:32-43 | refuses exactly the empty and the taken ids; otherwise appends in registration order |
| `Registry.Registry.Get` | internal/scoring/registry/registry.go:46-49 | finds the registered signal with the id, if and only if there is one |
| `Registry.Registry.All` | internal/scoring/registry/registry.go:52-58 | all signals in registration order, ids distinct |
| `Import.Service.ValidateObservation` | internal/importsvc/service.go:62-82 | the checks in their order, each refusal with its own reason, a failing agent lookup included |
| `Import.Service.ImportObservations` | internal/importsvc/service.go:48-58 | answers with the first refusal of the batch or the storage failure, and in both cases the store is as before |
| `Import.RefusedExactly` | internal/importsvc/service.go:62-82 | over every list of requests, each reason to refuse an observation under its exact condition on earlier imports and the registry |
| `Import.RequestsReachTheStore` | internal/importsvc/service.go:35-58 | a request reaches the store as it is, a refused import not at all |
| `Import.ServeIsRun` | internal/importsvc/service.go:35-58 | every list of requests amounts to a run of store calls, so all run theorems apply |
| `Import.ReachableStoresAreVetted` | internal/importsvc/service.go:48-82 | in every reachable store each row has a known agent and a registered non-derived signal that validates it |
| `Import.ReadValuesAreValid` | internal/importsvc/service.go:62-82 | whatever the engine reads for a deployed signal has passed that signal's validation |
| `Import.ImportedEvidenceNeverDegrades` | internal/scoring/engine/engine.go:76-109 | evaluating any agent over any reachable store never degrades a shipped signal, and the clamp is the identity |
| `Import.RiskFactorsAreWellFormed` | internal/scoring/engine/engine.go:168-171 | whenever an agent of a reachable store can be evaluated, every reported risk code names one of the five dimensions in the code alphabet, and the failure marker is never among them |
| `Detail.ReadableExactly` | internal/scoring/engine/engine.go:56-60 | on every reachable store the engine can read all it needs if and only if, for each registered signal, the committed times of the pair allow it |
| `Detail.DetailIsServedExactly` | internal/search/service.go:54-77 | for every list of requests the detail page is served if and only if the profile exists, the agent was imported, its last import has four-digit years and every registered signal of it can be read; it is not-found if and only if the profile exists and the agent was never imported |
| `Detail.PageIsEvaluation` | internal/search/service.go:54-77 | a page shows the evaluation of its own agent under the profile named, or under "default" |
| `Detail.MissingCertIsReported` | internal/scoring/engine/engine.go:61-74 | an agent that a weighted certificate-type signal never saw reports the missing certificate and is listed at 0 under identity |
| `Detail.AgeIsAlwaysListed` | internal/scoring/engine/engine.go:61-74 | the derived age is listed in every evaluation of every reachable store |
| `Detail.FourDigitYearsAlwaysServe` | internal/search/service.go:47-77 | when all committed times have four-digit years, every agent ever imported is served under every known profile, evaluated on the first write of the newest second of each pair, with well-formed codes |
| `Producers.ProbeAgent` | internal/prober/prober.go:98-168 | the five observations with their exact verdicts; a failed probe gives an empty observed side that never matches |
| `Producers.ProjectedVerdictIsBuilt` | internal/hydrator/project.go:13-81 | signal by signal: the server and identity fingerprints and the two DNS records are paired with their own sealed slots and the fixture value, and every other signal passes its value through |
| `Producers.ProjectedScore` | internal/hydrator/project.go:51-81 | the projected observation scores 100 if and only if the fixture value is the non-empty value of that slot, and raises the code if and only if the slot is not empty and differs |
| `Producers.BuiltVerdictsPassCrossCheck` | internal/scoring/signals/drift.go:72-91 | no verdict built by the hydrator or the prober is refused for its matched flag |
| `Producers.BuiltVerdictsScore` | internal/scoring/signals/drift.go:94-117 | a built verdict scores 100 if and only if the live value was obtained and equals a non-empty baseline, and raises its code if and only if a baseline went unmatched |
| `Producers.AcceptedHundred` | internal/scoring/signals/drift.go:72-117 | for any accepted verdict with both sides present, 100 means the sides are equal; the only accepted 100 with unequal sides has an empty observed side |
| `Producers.UnobservedMatchIsAccepted` | internal/scoring/signals/drift.go:82-89 | that exception is real: matched with an empty observed side is accepted and scores 100 |
| `Producers.ImportedObservationIsRead` | internal/importsvc/service.go:48-58 | an accepted observation that sorts behind the stored ones of its pair is what the engine reads next if its year has four digits; otherwise the read of the pair fails |
| `Producers.VerdictReachesTheScore` | internal/hydrator/project.go:51-81 | build, import, evaluate: the engine can read the signal if and only if the year has four digits; whenever every registered signal can be read, the integrity breakdown lists the entry, at 100 if and only if the live value was obtained and equals a non-empty baseline |
| `Feed.ApplyPage` | internal/rasync/fold.go:72-74 | applying a page in place continues the fold of all events so far |
| `Feed.DrainAndFold` | internal/rasync/fold.go:64-81 | against any feed it ends within maxFeedPages fetches, succeeds if and only if the feed reached its end, and then returns the fold of everything served |
| `FeedLaws.DrainGoesOn` | internal/raclient/client.go:76-78 | the drain ends with a page that is empty, blanks the cursor or leaves it unchanged, and goes on behind any other |
| `FeedLaws.DrainIsBounded` | internal/rasync/fold.go:67-80 | after 10,000 pages it is aborted |
| `FeedLaws.FoldIsSummary` | internal/rasync/fold.go:84-128 | closed form: status from the last recognised event, every other field from its last non-empty occurrence, first-seen from the first dated registration; present if and only if some recognised event names the agent |
| `FeedLaws.StatusIsLastLifecycle` | internal/rasync/fold.go:45-56 | in event names: an agent is in the fold if and only if the log has one of the four lifecycle events of it, and its status is the one the last of them stands for |
| `FeedLaws.OwnEventsDecide` | internal/rasync/fold.go:84-128 | an agent's record depends only on its own events |
| `FeedLaws.RedeliveryIsHarmless` | internal/rasync/fold.go:84-128 | folding the log followed by any of its suffixes gives the fold of the log |
| `FeedLaws.DrainSeesTheWholeLog` | internal/rasync/fold.go:64-81 | against a faithful feed the drain sees exactly the log if and only if the pages it takes fit in the budget |
| `FeedLaws.PageSizeIsIrrelevant` | internal/raclient/client.go:76-78 | two page sizes and two ways of marking the tail drain the same events |
| `PageCount.PagesIsCeiling` | internal/rasync/fold.go:64-81 | the page count is the ceiling of events over page size |
| `Merge.MergeDedupe` | internal/hydrator/project.go:94-107 | the concatenation without empty and repeated values, in order of first occurrence |
| `Merge.ProtocolsAndTransports` | internal/rasync/rasync.go:190-206 | the deduplicated protocols and transports of the endpoints |
| `Merge.ProjectEndpoints` | internal/rasync/rasync.go:210-225 | one fixture endpoint per transport, one for a bare endpoint, none for an empty one |
| `Merge.RemergeAddsNothing` | internal/hydrator/project.go:31-46 | merging a written event's endpoints into its protocol and transport sets again adds and reorders nothing |
| `Sync.NormalizePageSize` | internal/rasync/rasync.go:48-57 | always within 1 to 200, whatever is configured |
| `Sync.ConfiguredSizeReachesFeed` | internal/rasync/rasync.go:48-70 | sizes 1 to 200 reach the feed as configured, none means 100 and more means 200 |
| `Sync.ConfiguredPageSizeIsIrrelevant` | internal/rasync/rasync.go:64-73 | against a feed that serves one log at every size, all configured page sizes whose pages fit in the budget drain the same events |
| `Sync.SafeIdsKeepTheirNames` | internal/rasync/rasync.go:258-271 | ids in the safe alphabet name their own file and no two share one |
| `Sync.FileNameCharwise` | internal/rasync/rasync.go:258-271 | character by character what a file is called; no name holds a path separator |
| `Sync.YamlMeans` | internal/rasync/rasync.go:236 | a fixture is a name that ends in .yaml |
| `Sync.GoodExactly` | internal/tlevent/event.go:96-122 | which merged events are valid, field by field |
| `Sync.UnsafeIdsCollide` | internal/rasync/rasync.go:258-271 | counterexample outside the alphabet: two ids share a file |
| `Sync.BuildEvent` | internal/rasync/rasync.go:144-186 | the field-by-field merge yields the merged event of the specification |
| `Sync.FiveBadgeFieldsWin` | internal/rasync/rasync.go:137-186 | of a badge only the attestations and, when not empty, status, first-seen, host and version count; they then reach the fixture whatever the feed says, and a badge blank in all five is as good as none |
| `Sync.FeedFillsTheRest` | internal/rasync/rasync.go:144-206 | without a badge every field of the event is the feed's, with its fallbacks, and nothing is sealed |
| `Sync.WriteFixture` | internal/rasync/rasync.go:246-256 | writes exactly the one file of the event, or nothing |
| `Sync.CaptureOne` | internal/rasync/rasync.go:106-117 | one agent: dropped or written, and counted once; fails if and only if a valid event cannot be written |
| `Sync.Capture` | internal/rasync/rasync.go:88-117 | for every visiting order the loop finishes if and only if no fetch is cut short and every fixture can be written, and then counters and files are those of the whole set |
| `Sync.PrepareOutDir` | internal/rasync/rasync.go:227-244 | removes exactly the old fixtures |
| `Sync.Conclude` | internal/rasync/rasync.go:123-134 | accepts if and only if something was captured and some badge was found |
| `Sync.Accounting` | internal/rasync/rasync.go:88-134 | captured plus dropped is the number of folded agents; the two refusals are exactly "nothing valid" and "no badge" |
| `Sync.Run` | internal/rasync/rasync.go:64-135 | success if and only if the plan is acceptable, independent of order; success accounts for every agent and leaves the valid merged events; a failed drain or an empty fold leaves the directory alone, and any later failure leaves no fixture but valid merged events and all other files as they were |
| `Sync.FixturesAreTheValidEvents` | internal/rasync/rasync.go:246-271 | the fixtures are the valid events one for one if and only if no two file names clash, which safe ids guarantee |
| `Sync.VisitingOrderIsIrrelevant` | internal/rasync/rasync.go:88-117 | two runs in different orders leave the same fixtures |
| `Badges.NormalizeRfc3339` | internal/tlclient/client.go:232-251 | the index loop cuts from the first dot to the zone designator |
| `Badges.FractionIsCut` | internal/tlclient/client.go:222-251 | a fraction between seconds and zone disappears and nothing else changes |
| `Badges.NothingElseIsCut` | internal/tlclient/client.go:232-251 | text without a dot is left alone, and without a zone everything from the dot on is cut |
| `Badges.MapEventMeans` | internal/tlclient/client.go:195-220 | field by field what the first badge schema maps to, missing records being empty |
| `Badges.PrimaryCertFingerprint` | internal/tlclient/v2.go:92-125 | the first entry attaining the newest parseable expiry, or the first entry when none parses |
| `Badges.PrimaryIsUnique` | internal/tlclient/v2.go:102-125 | that description names one entry |
| `Badges.MapEventV2` | internal/tlclient/v2.go:60-90 | every mapped field, with the DNS list read as a map in which the last record of a name wins |
| `Badges.MappingIsDetermined` | internal/tlclient/v2.go:60-125 | the V2 mapping leaves no choice |
| `Badges.MappersAgree` | internal/tlclient/client.go:195-220 | a V1 event embedded as V2, with any expiries and any DNS order, maps to the V1 result |
| `Like.EscapedMatchesLiterally` | internal/adapter/sqlitestore/index.go:197-206 | in a pattern, escaped text matches itself up to folding and hands the rest on |
| `Like.FoldingIsAlike` | internal/adapter/sqlitestore/index.go:180-195 | characters are alike when equal, the two cases of an ASCII letter, or among U+FFFD to U+FFFF |
| `Like.OccursMeans` | internal/adapter/sqlitestore/index.go:180-195 | occurrence means alike characters, place by place |
| `Fts.SpaceMeans` | internal/adapter/sqlitestore/index.go:222-223 | the code points that separate fields |
| `Like.ContainsPatternIsLiteral` | internal/adapter/sqlitestore/index.go:180-206 | read in full, the pattern built from any v matches s if and only if v occurs in s literally up to folding |
| `Like.ContainsPatternExactly` | internal/adapter/sqlitestore/index.go:180-206 | as SQLite reads it, up to the first U+0000: a value without one selects the texts it occurs in before any, another one the texts that end with its part before it |
| `Like.LiteralExactly` | internal/adapter/sqlitestore/index.go:180-206 | the pattern is literal on all texts without U+0000 if and only if the value has none |
| `Fts.SolidRunIsOneField` | internal/adapter/sqlitestore/index.go:222-232 | a run without spaces is one field |
| `Fts.FieldsSplitAtSpace` | internal/adapter/sqlitestore/index.go:222-232 | every space splits; with the previous row this determines the fields of every text |
| `Fts.ReadQueryOfJoined` | internal/adapter/sqlitestore/index.go:227-231 | reading the quoted terms with FTS5's string grammar gives the terms back if and only if none holds U+0000, and fails otherwise |
| `Fts.FtsReadsTheFields` | internal/adapter/sqlitestore/index.go:219-232 | for every text FTS5 reads back exactly its whitespace-separated fields if and only if it holds no U+0000, and refuses the query otherwise; the query is empty if and only if there are no fields |
| `Filters.DomainClause` | internal/adapter/sqlitestore/index.go:184-195 | one LIKE per value with its escaped pattern, nothing for no values |
| `Filters.BuildFilters` | internal/adapter/sqlitestore/index.go:113-148 | the appended clauses and arguments are the specified compilation |
| `Filters.CompilationPreservesMeaning` | internal/adapter/sqlitestore/index.go:113-195 | the clauses, bound left to right, accept an agent if and only if it satisfies the plain conjunction of the filters, domains as LIKE reads them; one argument per filter entry |
| `Filters.DomainsAreLiteralExactly` | internal/adapter/sqlitestore/index.go:180-195 | a domain filter means literal occurrence on all names without U+0000 if and only if another value makes each value holding one redundant |
| `Filters.SelectionIsLiteral` | internal/adapter/sqlitestore/index.go:113-195 | under that condition the compiled query is the plain literal conjunction of the seven filters |
| `Filters.WherePlaceholders` | internal/adapter/sqlitestore/index.go:150-195 | the SQL text of any clause list has exactly as many placeholders as the clauses take arguments |
| `Filters.SqlMeans` | internal/adapter/sqlitestore/index.go:119-195 | the SQL text of every clause, with the column it reads |
| `Filters.RepeatedMarks` | internal/adapter/sqlitestore/index.go:150-154 | n question marks with commas between them |
| `Filters.WhereMeans` | internal/adapter/sqlitestore/index.go:39-42 | clauses are joined with AND |
| `Filters.BindingsFit` | internal/search/params.go:12-17 | placeholders equal arguments, and an accepted query binds at most 703 values, under 999 |
| `Listing.ResultIsSelection` | internal/adapter/sqlitestore/index.go:119-124 | over an exact index the text-search join neither duplicates nor loses an agent |
| `Listing.OrderedIsSorted` | internal/adapter/sqlitestore/index.go:117-124 | the list is strictly ordered |
| `Listing.ListIsTheSelection` | internal/adapter/sqlitestore/index.go:83-90 | for every run of the store the list holds exactly the selected agents, once each, in the documented order, and the count agrees |
| `Results.ListShowsImports` | internal/adapter/sqlitestore/index.go:113-148 | over every run the list holds exactly the ids whose last import satisfies the plain conjunction of the filters, each once, with all that import held, by rank or name and then id |
| `Decimal.AtoiOfItoa` | internal/adapter/sqlitestore/index.go:262-280 | decimal printing is undone by parsing |
| `Decimal.AtoiOfSigned` | internal/search/params.go:148-158 | signs are read as such and numbers outside 64 bits are refused |
| `Decimal.ItoaMeans` | internal/adapter/sqlitestore/index.go:262-264 | decimal digits, most significant first |
| `Tokens.Base64RoundTrip` | internal/adapter/sqlitestore/index.go:262-280 | unpadded base64url (section 5 of RFC 4648) decodes what it encodes, for all bytes |
| `Tokens.TokenRoundTrip` | internal/adapter/sqlitestore/index.go:262-280 | every page number survives its token, which is never empty |
| `Tokens.TokenMeans` | internal/adapter/sqlitestore/index.go:266-280 | a token is exactly what decodes to "p:" and a positive number |
| `Tokens.Alphabet` | internal/adapter/sqlitestore/index.go:262-264 | the base64url alphabet |
| `Tokens.BitsOfLetters` | internal/adapter/sqlitestore/index.go:262-264 | three bytes and their four letters hold the same bits in the same order |
| `Links.AddAll` | internal/search/handler.go:153-157 | appends the values under the key and leaves the other keys alone |
| `Links.QueryValues` | internal/search/handler.go:126-151 | every field is printed under its own key and only there |
| `Links.HrefFor` | internal/search/handler.go:113-124 | the self link prints the query; a token replaces the cursor and drops the page number |
| `Links.ParseStatuses` | internal/search/params.go:130-144 | accepts exactly the lists of known statuses, unchanged |
| `Links.ParseSearchQuery` | internal/search/params.go:28-63 | what is read, what is rejected, and that everything read is an acceptable query |
| `Links.RejectedExactly` | internal/search/params.go:28-87 | what is rejected and what every other request is read as, parameter by parameter |
| `Links.LinksReadBack` | internal/search/handler.go:111-151 | no link printed for an accepted query is rejected, and reading it back changes nothing but the cursor |
| `Paging.ClampSize` | internal/adapter/sqlitestore/index.go:234-243 | always within 1 to 100 |
| `Paging.EffectivePage` | internal/adapter/sqlitestore/index.go:245-260 | always within 1 to maxPage |
| `Paging.CutPage` | internal/adapter/sqlitestore/index.go:44-80 | the peeked row decides the next token; items, tokens and totals are those of the page, or an error if a fetched row cannot be read |
| `Paging.ScanRows` | internal/adapter/sqlitestore/index.go:92-111 | reads the rows in order and fails if and only if one of them cannot be read |
| `Paging.ListRows` | internal/adapter/sqlitestore/index.go:83-90 | the rows of the list query, and the same number from the count query |
| `Paging.Search` | internal/adapter/sqlitestore/index.go:37-81 | the page of the full ordered list that the query asks for, or an error if and only if the text holds U+0000 or a fetched row, the peeked one included, cannot be read |
| `Results.EveryQueryAsks` | internal/adapter/sqlitestore/index.go:234-260 | every query asks for one page of one size: sizes 1 to 100 as given, 20 for none, 100 for more; pages as given up to 100000, the token before the number, the first when it cannot be read |
| `Results.PageIsExact` | internal/adapter/sqlitestore/index.go:44-80 | a successful answer holds exactly the rows between the bounds of the page asked for, the totals n and ceil(n/size) when asked for, and tokens for exactly the neighbouring pages that exist |
| `Results.SearchAnswersExactly` | internal/adapter/sqlitestore/index.go:37-111 | over every run a search answers if and only if the text holds no U+0000 and the last imports of the rows fetched have four-digit years |
| `PageCount.PagesIsDivision` | internal/adapter/sqlitestore/index.go:78 | TotalPages is the number of pages the rows fill |
| `Paging.StoreIsSteady` | internal/adapter/sqlitestore/index.go:37-81 | over an unchanged store, moving the cursor leaves the list alone |
| `Paging.BuildLinks` | internal/search/handler.go:100-109 | a self link and one link per cursor, each once, each printed for its own token |
| `Paging.NoLinkIsRejected` | internal/search/handler.go:100-124 | each of them parses back to the query with only the cursor moved |
| `Paging.SelfLinkIsFaithful` | internal/search/handler.go:100-124 | the self link asks for the very same page |
| `Walks.WalkVisitsEverything` | internal/adapter/sqlitestore/index.go:37-81 | for a query that runs and n up to maxPage times size, printing, re-parsing and searching from page 1 shows every row once, in order, if and only if every row can be read; it then takes max(1, ceil(n/size)) pages |
| `Walks.WalkNeverEnds` | internal/adapter/sqlitestore/index.go:256-258 | beyond that bound a walk over readable rows repeats the last reachable page for ever |
| `Walks.WalkEndsExactly` | internal/adapter/sqlitestore/index.go:245-260 | a walk ends if and only if the query is refused, the list fits under maxPage times size, or a row within reach cannot be read |
| `Walks.PrevUndoesNext` | internal/adapter/sqlitestore/index.go:64-70 | following the printed next link and then the printed prev link returns to the same page if and only if the page is below maxPage |
| `Walks.WalkShowsTheSelection` | internal/adapter/sqlitestore/index.go:37-148 | over every reachable store the walk for a text without U+0000 shows the whole list if and only if the last import of every selected agent has four-digit years; it then shows each selected agent exactly once, in the documented order; for any other text it shows nothing |
| `Results.WalkShowsImports` | internal/adapter/sqlitestore/index.go:37-148 | over every run a walk shows the whole list if and only if the last imports of all chosen ids have four-digit years; it then shows exactly the ids whose last import is chosen, each once, with all that import held, in the documented order |

## Left out

- HTTP servers and clients, middleware, authentication, logging and error rendering.
- JSON, YAML and URL percent-encoding: values are taken as decoded, and URL parameters
  as a map from parameter name to values.
- Scoring.WeightedAverage: does not model IEEE rounding; weights and means are exact
  reals, so order independence is a statement about exact arithmetic. The same holds
  for the age ramp and the stability decay.
- Rows written before the fixed-width format: `TimeText.ParseTime` reads the layout
  that is written, not fractions or offsets.
- Store.DB.LatestObservation: does not model a query that the database itself fails;
  the laws of the engine hold for any reader, failing ones included.
- Store.DB.GetAgent: likewise; import lookups that fail that way are modelled.
- Paging.Search: likewise.
- SQLite and FTS5 internals: tokenizing, stemming and ranking are parameters, and a text
  query that FTS5 cannot read is taken to fail whatever the tables hold.
- SQLite's limit of 50,000 bytes on a LIKE pattern, past which a domain filter fails.
- Text that is not valid UTF-8: strings are sequences of Unicode characters.
- Shipped.AgeScoreRises: does not model that a difference of times saturates near 292
  years; only the number of days in the explanation text differs.
- Sync.WriteFixture: does not model a failing write that leaves part of a file.
- Deleting an agent, and with it the agents_ad trigger and the cascade: no call of the
  store deletes agents.
- The migration runner, configuration and profile loading; what the loader checks of
  the thresholds is `Cascade.Ascending`.
- `ImportAgents` only forwards to the store and appears as a request in `Import.Serve`.
- Length caps and field shapes of the import request body; the POST search body.
- The agent body that the hydrator sends, except for its protocol and transport sets.
- Live DNS and TLS probing and the address guard: probe results are inputs of
  `Producers.ProbeAgent`.
- Sync.PrepareOutDir: does not model failing directory operations or a directory named
  like a fixture; a fixture that cannot be written is modelled.
- The subject class of a provider score, which no modelled code reads, and the
  verification tier, which the engine always leaves unset.
- The snapshot producer and the client of another index: near copies of the merge and
  of the paging walk.
