# Intercore coordination kernel, in Dafny

Intercore keeps the state of many agents in one SQLite database. This project models
the parts of it that must stay right while several processes work at once, and proves
what they promise:

| module | what it models |
|---|---|
| `Ranges`, `Glob`, `GlobEngine`, `GlobScalars`, `GlobText` | the glob intersection engine: range arithmetic, the segment parser, the worklist over the product of two pattern automata, and what patterns mean character by character |
| `Locks` | the coordination lock table that rests on it |
| `DispatchModel`, `DispatchColumns`, `DispatchOutcomes`, `DispatchLimits`, `DispatchStore`, `DispatchChains` | the dispatch kernel: admission under limits, exactly-once outcomes, rollback, retries and retry chains |
| `Escalation` | the two-strikes ladder, and the routing resolver's candidates, over the dispatch store |
| `Events`, `EventsTail` | the merged event listing and the cursor loop of `ic events tail` |
| `GoalClose` | closing a goal under a fenced lease |
| `Audit` | the hash-chained audit log |
| `Lifecycle` | the agent lifecycle machine |

`dafny verify dfyconfig.toml` checks everything.

## How to read it

A store is a class whose fields are the tables. A method is one transaction, or one
UPDATE where the source issues a single one; where the source rolls back, the method
puts back the snapshot it took. The method's contract ties the new tables to a function
of the old ones (`Terminalized`, `SweptRows`, `Attempt`, `OnGoal`, ...), and says once more
in the columns themselves what is read and written. A run is a sequence of such
transactions by any clients, in the order in which they commit, and the safety theorems
quantify over all runs. Two statements that the source issues separately
are two steps of a run: this is how a failed `FinishClose` reads the goal back, and how a
dispatch is read before its retry is admitted (`DispatchLimits.RetryOfWhatWasRead`).

Patterns and paths are sequences of code points. What two patterns mean is defined from
the grammar alone (`Glob.Parse`, `Glob.Matches`), with no automaton in it; the engine is
proved against that. `GlobText` says the same a second time, straight off the characters of
the whole pattern, and proves the two readings equal. The grammar is the one `parseSegment`
accepts, so `[]a]` is a class that holds `]` and `a`.

Clocks, random ids, the outcome of an INSERT or of an output write, and the stored kernel
and run policies are parameters. The theorems assume what the source assumes of them:

- the wall clock of the lock table does not run backwards, and a new event is not older
  than the events of its table;
- random ids do not repeat: an id that is not in use was never in use;
- the stored kernel and run limits stay fixed over a run, and the limits of a request are
  not negative, which `SpawnOptions.Validate` checks (`internal/dispatch/admission.go:20-43`);
- no other writer inserts a terminal dispatch event: the event recorders write status changes;
- a session has one live audit logger, calls on one escalation chain do not overlap, and one
  `ic events tail` runs at a time under a cursor key;
- a dispatch keeps its model: the column is not among those that `UpdateStatus` may set
  (`internal/dispatch/dispatch.go:231-239`).

The two triggers on `dispatches` are modelled as `internal/db/schema.sql:818-846` states
them, so `UpdateStatus` may write any status.

## Where the code and its comments disagree

- `internal/event/store.go:123-124` tells callers to poll until a batch is shorter than the
  limit. A short batch can leave rows behind (`Events.ShortBatchLeavesRows`). It drains the
  tables exactly when no source had more than its share pending (`Events.ShortBatchDrains`);
  an empty batch always means drained (`Events.EmptyMeansDrained`).
- `internal/dispatch/escalate.go:53-54` promises one attempt per higher rung. Strikes are
  reset on every rung, so each rung gets all its strikes (`Escalation.NewRungHasAllItsStrikes`).
- The measure that counts escalations left times strikes per rung, plus strikes left, does not
  fall when an earlier escalation was refused by admission (`Escalation.PlainMeasureFalls`
  says exactly when it falls, `Escalation.PlainMeasureStalls` is a run in which it does not).
  `Escalation.Measure` falls then too, but for a failure that an earlier call put on the chain
  only when the call takes the chain to another model (`Escalation.MeasureFalls`). So the limits
  bound the retries of a chain only together with the number of calls that record a failure and
  do not retry it (`Escalation.ChainIsBounded`): with two models, one strike and one escalation,
  any number of failures, each refused by admission first, are all retried after one escalation
  (`Escalation.RefusedFailuresAreFree`).
- `internal/dispatch/escalate.go:173-175` refuses to retry a dispatch again. When the call that
  admits the retry cannot record its decision or save the chain afterwards
  (`internal/dispatch/escalate.go:320-327`), the same call, made again, admits another row for the
  dispatch (`Escalation.LostOutcomeAdmitsAgain`), and only then (`Escalation.AdmittedOnce`).
- `internal/dispatch/escalate.go:237` keeps a chain from going back and forth between models it
  tried. That holds with at least one strike per rung
  (`Escalation.NoIdentityRevisited`); with none, which `EscalationPolicyFromConfig` rules out,
  a failure refused before the first escalation takes the chain from one model to a second and
  the next failure back to the first (`Escalation.ZeroStrikesGoBack`).
- `ic events tail` keeps one cursor per consumer and run (`cmd/ic/events.go:723-741`), whatever
  the other flags were. A command that resumes from it misses the rows that an earlier one with
  other `--since` flags, or without `--all`, passed by (`EventsTail.HarmfulCommandSkips`), and
  no others (`EventsTail.NothingSkipped`).
- `internal/dispatch/retry.go:188-189` promises all dispatches of a retry chain. Only the
  oldest listed child of each dispatch is followed, so the chain may miss the very dispatch it
  was asked for (`DispatchChains.OlderChildHidesRetry` is a run after which it does,
  `DispatchChains.ListRetryChain` says when).
- The status column takes any text. A row parked under an unknown status is not counted, and
  setting it to running again passes the limits (`DispatchLimits.UnknownStatusDefeatsTheCap`).
  `DispatchLimits.ReachableWithinGlobal` says exactly in which runs the limit on active rows
  holds; the limits on a run's rows and on depth hold in all of them
  (`DispatchLimits.ReachableWithinStatic`).
- `internal/audit/audit.go:5-7` says that a session's numbers detect deletions. Deleting the
  last entries is not detected (`Audit.DeletionIsNoticed`). A failed insert spends a number, so
  the next stored entry leaves a gap; and a payload that changes when it is decoded and encoded
  again fails verification. `Audit.AcceptedUntilABreak` says exactly when a log verifies.
- The domain of a class (`internal/coordination/glob.go:39-44`) has the surrogates in it, which
  no decoded string contains. `GlobScalars.OnlySurrogatesLeft` is a pattern for which that shows,
  `GlobScalars.ScalarOverlapExact` says for every pair of patterns whether a string spells a
  common path, and `GlobScalars.OverlapWithoutSurrogates` gives a simpler condition under which
  the engine's answer is about such paths.
- `Lock.IsActive` (`internal/coordination/types.go:57-65`) counts a lock that expires this very
  second; the queries do not. The model follows the queries.

## Model

| member | source | states |
|---|---|---|
| `Ranges.NormalizeRanges` | internal/coordination/glob.go:342-369 | any well-formed ranges become sorted, pairwise non-touching ranges of exactly the same code points |
| `Ranges.SortRanges` | internal/coordination/glob.go:347-353 | the result is ordered by low end, then high end, and is a permutation of the input |
| `Ranges.RangesOverlap` | internal/coordination/glob.go:275-289 | for ascending lists, true exactly when some code point lies in both |
| `Ranges.IntersectRanges` | internal/coordination/glob.go:291-309 | ascending ranges that hold exactly the common code points |
| `Ranges.SubtractRanges` | internal/coordination/glob.go:311-340 | ascending ranges that hold exactly the code points of the first list outside the second |
| `Ranges.CutAll` | internal/coordination/glob.go:317-337 | one base range minus every subtracted range, in order and within the base |
| `Ranges.CutOne` | internal/coordination/glob.go:319-332 | every piece minus one subtracted range |
| `Ranges.NonSeparatorExact` | internal/coordination/glob.go:39-44 | the constant behind `?`, `*` and complements holds every code point except the separator |
| `Glob.ParseRender` | internal/coordination/glob.go:167-260 | writing a valid element sequence down and parsing it gives the sequence back |
| `Glob.SplitJoin` | internal/coordination/glob.go:75-76 | splitting at the separator undoes joining of separator-free segments |
| `Glob.OverlapSymmetric` | internal/coordination/glob.go:74-95 | two patterns have a common path in either order of asking |
| `Glob.OverlapBySegment` | internal/coordination/glob.go:74-95 | a common path exists exactly when the segment counts agree and each pair of segments has a common text |
| `Glob.MatchedTextHasNoSlash` | internal/coordination/glob.go:156-165 | no parsed segment matches a text with a separator in it |
| `GlobEngine.ReadClassRune` | internal/coordination/glob.go:262-273 | reads one possibly escaped class rune exactly as the grammar does, and fails exactly when it does |
| `GlobEngine.ParseClass` | internal/coordination/glob.go:202-260 | accepts exactly the classes of the grammar; the token's ranges are ascending, free of the separator, and denote exactly the written class or its complement |
| `GlobEngine.ClassRanges` | internal/coordination/glob.go:252-259 | the ranges of a class from its items, negated or not, without the separator |
| `GlobEngine.ParseSegment` | internal/coordination/glob.go:167-200 | accepts exactly the segments of the grammar and denotes their elements one by one |
| `GlobEngine.ValidateComplexity` | internal/coordination/glob.go:48-71 | succeeds exactly when every segment parses and neither the token count nor the wildcard count passes its limit |
| `GlobEngine.AutomatonExact` | internal/coordination/glob.go:119-165 | a token list matches a text exactly when its automaton reaches the end on it |
| `GlobEngine.AddClosure` | internal/coordination/glob.go:119-137 | adds the given state and what stars reach from it, each once, and nothing outside a set that is closed under stars |
| `GlobEngine.Explore` | internal/coordination/glob.go:107-153 | never queues a state twice nor more than (n+1)(m+1) in all; true exactly when the two token lists share a text; when false, the states seen are exactly the reachable ones |
| `GlobEngine.SegmentPatternsOverlap` | internal/coordination/glob.go:97-154 | fails exactly when a segment does not parse; otherwise true exactly when some text matches both |
| `GlobEngine.PatternsOverlap` | internal/coordination/glob.go:74-95 | true exactly when some path matches both patterns; fails exactly when a segment pair does not parse and every pair before it overlaps |
| `GlobScalars.OverlapWithoutSurrogates` | internal/coordination/glob.go:39-44 | when no element of the one pattern shares only surrogates with one of the other in the same segment, a common path exists exactly when one exists that a string can spell |
| `GlobScalars.ScalarOverlapExact` | internal/coordination/glob.go:74-154 | for any two patterns, a string can spell a common path exactly when the segment counts agree and in every pair of segments the ends of both automata are reached together by skipping stars and by reads that share more than surrogates |
| `GlobScalars.KeepingLastShares` | internal/coordination/glob.go:202-260 | that is so for patterns that decode from strings, unless a complement leaves out U+D7FF |
| `GlobScalars.OnlySurrogatesLeft` | internal/coordination/glob.go:252-259 | a complement that leaves only surrogates overlaps itself although no string spells a path it matches |
| `GlobScalars.ConsumesLast` | internal/coordination/glob.go:202-260 | a written range that covers a surrogate covers U+D7FF too |
| `GlobText.FitsExact` | internal/coordination/glob.go:75-200 | every pattern, well-formed or not, matches exactly the paths that fit its characters one by one: a star any run without separators, a question mark one character, a backslash the next character, a class what it lists, everything else itself |
| `GlobText.PlainMatchesItself` | internal/coordination/glob.go:193-195 | a pattern without star, question mark, bracket and backslash matches itself and nothing else |
| `GlobText.PlainOverlap` | internal/coordination/glob.go:193-195 | two such patterns overlap exactly when they are equal |
| `GlobText.ClassOfMembers` | internal/coordination/glob.go:202-260 | an unescaped class holds exactly its members, a bracket in first place and a dash in last place among them, and a negated one everything else but the separator |
| `GlobText.ClassOfRange` | internal/coordination/glob.go:231-243 | two characters with a dash between them hold exactly the interval, without the separator |
| `GlobText.MalformedIsRefused` | internal/coordination/glob.go:187-273 | a reversed range, an open bracket and a trailing backslash are refused |
| `GlobText.WeightExact` | internal/coordination/glob.go:48-61 | counting tokens and wildcards is counting characters: one token for each character, escape, class and wildcard, one wildcard for each star and question mark, none for a separator |
| `GlobText.AdmissibleExact` | internal/coordination/glob.go:48-71 | the gate passes exactly the well-formed patterns of at most fifty tokens and ten wildcards |
| `GlobText.SimpleWeight` | internal/coordination/glob.go:48-61 | without classes and escapes the tokens are the characters other than separators, the wildcards the stars and question marks |
| `Locks.PatternsConflict` | internal/coordination/store.go:107-116 | on stored patterns the overlap check never fails and is exact |
| `Locks.FindBlocker` | internal/coordination/store.go:90-130 | finds a row that blocks the request, exactly when there is one |
| `Locks.Store.Reserve` | internal/coordination/store.go:57-163 | refuses a bad pattern, reports a blocker exactly when one exists and leaves the table alone, or sweeps and inserts the row: of the request, unreleased, expiring a positive TTL after its creation |
| `Locks.Store.Release` | internal/coordination/store.go:166-189 | releases exactly the unreleased rows named by id, or by owner and scope, and counts them |
| `Locks.Store.Check` | internal/coordination/store.go:192-230 | lists exactly the active rows of the scope that overlap and are not the excluded owner's, in table order |
| `Locks.Store.Transfer` | internal/coordination/store.go:276-353 | unforced, refuses exactly when an exclusive lock of one owner overlaps an exclusive one of the other; otherwise changes exactly the owner of the active rows, and counts them |
| `Locks.Store.Sweep` | internal/coordination/store.go:357-401 | releases exactly the rows that expired before the cutoff and counts them, as a step of a run; a dry run only counts |
| `Locks.Store.JoinsConflict` | internal/coordination/store.go:294-332 | the double loop of Transfer finds a clash exactly when there is one |
| `Locks.ReserveKeepsSafe` | internal/coordination/store.go:57-163 | a grant leaves every pair of active locks compatible |
| `Locks.OthersKeepSafe` | internal/coordination/store.go:166-401 | release, sweep, transfer and the passing of time do too, forced transfers as well |
| `Locks.ReachableSafe` | internal/coordination/store.go:57-401 | in every run, active locks of one scope that share a path and differ in owner are both shared |
| `Locks.MutualExclusion` | internal/coordination/store.go:57-163 | no path is ever covered by active locks of two owners of which one is exclusive |
| `Locks.RowsPersist` | internal/coordination/store.go:57-401 | no transaction removes a row or changes what it locks, and a released row stays released |
| `Locks.SweepNeverReleasesABlocker` | internal/coordination/store.go:357-401 | a row that a sweep releases would never again have blocked a Reserve |
| `Locks.GrantKeepsOthersOff` | internal/coordination/store.go:57-163 | in every later world a granted row blocks a request exactly when it is unreleased, its time to live is not over, the owners differ, the scopes agree, one of the two is exclusive and the patterns overlap |
| `Locks.GrantedIsRefusedToOthers` | internal/coordination/store.go:90-139 | so until then no incompatible request of another owner is granted |
| `Locks.ThreeKinds` | internal/db/schema.sql:404-406 | a row has one of the three kinds of the CHECK constraint |
| `Locks.TransferConserves` | internal/coordination/store.go:334-348 | a transfer keeps every row, changes only owners, and leaves the one owner no active row in the scope; without a conflict no path is covered by exclusive rows of both |
| `Locks.CheckAgreesWithReserve` | internal/coordination/store.go:90-135 | a blocker of Reserve is listed by Check for the other owners, so an empty Check means no conflict |
| `DispatchOutcomes.StepSound` | internal/dispatch/terminal.go:185-329 | every committed transaction keeps status, record and terminal event of every dispatch in agreement |
| `DispatchOutcomes.ReachableOutcomes` | internal/dispatch/terminal.go:185-329 | so they agree in every reachable state |
| `DispatchOutcomes.ExactlyOnce` | internal/dispatch/terminal.go:221-329 | a retained dispatch is terminal exactly when it has a record; the record has its status and names the one terminal event about it, which has it too |
| `DispatchOutcomes.RecordNeverChanges` | internal/dispatch/terminal.go:260-329 | a record stays as written while its dispatch is retained |
| `DispatchOutcomes.OutcomeNeverChanges` | internal/dispatch/terminal.go:221-329 | so does the status it records, whoever writes later |
| `DispatchOutcomes.SupervisedOutcomes` | internal/dispatch/terminal.go:62-68 | a record that appears while its dispatch is supervised is the work of one terminalize of that dispatch by a supervisor, reconcile or spool source, and names that same source |
| `DispatchOutcomes.RollbackEffect` | internal/dispatch/dispatch.go:536-604 | a rollback cancels every unsupervised live dispatch of the run, adds one intent for each supervised one with its status unchanged, and touches nothing else |
| `DispatchOutcomes.RollbackCounts` | internal/dispatch/dispatch.go:560-604 | it adds as many events as rows it cancels and as many intents as rows it spares |
| `DispatchOutcomes.RollbackSays` | internal/dispatch/dispatch.go:536-604 | every cancelled row has a record with its attempt, parent and former status, the rollback as its source and an event of its own with the reason; no other row gains a record; every new intent gives the reason |
| `DispatchOutcomes.FinishedRowStays` | internal/dispatch/dispatch.go:342-376 | a finished row keeps its outcome under every transaction that keeps the row, and one of a flere agent all its columns |
| `DispatchColumns.AdmissionMeans` | internal/dispatch/admission.go:100-213 | a request may be admitted exactly when the stored limits are readable, it fits its parent and its run, the rows with status spawned or running and the rows of the run are below each limit of the request, the kernel and the run, the depth is within the limits, and an enforced budget exceeds the sum of the tokens reported in the run |
| `DispatchColumns.CountsAreSizes` | internal/dispatch/policy.go:71-137 | the three counts are the numbers of rows with status spawned or running, of rows of the run, and of rows that are both |
| `DispatchColumns.TokensAreSummed` | internal/dispatch/admission.go:186-205 | the tokens used are the sum of the input and output tokens of the rows of the run |
| `DispatchColumns.TerminalizedColumns` | internal/dispatch/terminal.go:221-329 | a recorded outcome, column by column: source, evidence, status and reason of the caller, attempt, parent, run and former status of the row |
| `DispatchColumns.WriteStatusColumns` | internal/db/schema.sql:817-833 | a status written past the terminal writer, column by column, with what the outbox trigger adds |
| `DispatchColumns.GuardColumns` | internal/db/schema.sql:835-846 | the guard aborts exactly an outcome of a live supervised row without a record |
| `DispatchColumns.WritableColumns` | internal/dispatch/terminal.go:62-68 | who may write an outcome, by the sources and statuses themselves |
| `DispatchColumns.OtherWriters` | internal/event/store.go:52-97 | supervision can begin at any time; an event recorder adds any event but a terminal one |
| `DispatchOutcomes.PrunedSound` | internal/dispatch/dispatch.go:429-460 | pruning keeps the remaining dispatches, records and events in agreement |
| `DispatchOutcomes.WriteStatusSound` | internal/db/schema.sql:818-846 | a raw status write keeps them in agreement, thanks to the two triggers |
| `DispatchLimits.TightenIsMinimum` | internal/dispatch/admission.go:122-144 | with zero for unlimited, the effective limit is the smaller of the two |
| `DispatchLimits.CallerOnlyTightens` | internal/dispatch/admission.go:122-213 | a request admitted under caller limits is admitted without them |
| `DispatchLimits.ReachableWithinStatic` | internal/dispatch/admission.go:122-213 | in every run, whatever statuses are written, the retained rows of a run never pass its `max_agents` and no depth passes the kernel limit |
| `DispatchLimits.ReachableWithinGlobal` | internal/dispatch/admission.go:122-213 | the active rows stay within the kernel limit throughout a run exactly when no status write wakes a row from an unknown status at a moment when the limit is reached |
| `DispatchLimits.KnownStatusesKeepTheCap` | internal/dispatch/admission.go:122-213 | so they stay within it when only the six known statuses are written |
| `DispatchLimits.StepWithinStatic` | internal/dispatch/policy.go:71-137 | every transaction keeps the limits on a run's rows and on depth |
| `DispatchLimits.StepWithinGlobal` | internal/dispatch/dispatch.go:283-286 | a transaction passes the limit on active rows exactly when it wakes a row from an unknown status at the limit |
| `DispatchLimits.StatusWriteRaisesActive` | internal/dispatch/dispatch.go:283-319 | a status write adds an active row exactly when it takes a live row from an unknown status to an active one |
| `DispatchLimits.UnknownStatusDefeatsTheCap` | internal/dispatch/dispatch.go:283-286 | four transactions that put two rows under a limit of one |
| `DispatchLimits.ReachableForest` | internal/dispatch/admission.go:146-166 | parent links lead to earlier dispatches, in every reachable state |
| `DispatchLimits.DepthCountsSpawnEdges` | internal/dispatch/admission.go:146-166 | a depth is the number of non-retry links up to the root |
| `DispatchLimits.DescendantsInherit` | internal/dispatch/admission.go:146-166 | a descendant is later, no shallower, and in the scope of its scoped ancestor |
| `DispatchLimits.RetryOfWhatWasRead` | internal/dispatch/retry.go:100-164 | whatever commits between reading a finished dispatch and admitting its retry, the retry is a child of that dispatch at its depth and in its scope, and the dispatch still has the outcome that was read |
| `DispatchLimits.ChildIsYounger` | internal/dispatch/admission.go:146-166 | a retained child was created after its retained parent |
| `DispatchStore.Store.UpdateRow` | internal/db/schema.sql:818-846 | the guard aborts exactly the writes it should; otherwise the row changes and the outbox fires exactly when due |
| `DispatchStore.Store.TerminalizeTx` | internal/dispatch/terminal.go:221-329 | which of the five answers is given and when, by statuses and sources; the row, the event and the record after a recorded outcome, column by column |
| `DispatchStore.Store.Terminalize` | internal/dispatch/terminal.go:185-219 | every answer but success leaves the tables alone; an outcome is recorded exactly for a live dispatch without a record by a source that may write, and the record, its event and the row are what the caller gave |
| `DispatchStore.Store.CancelByRun` | internal/dispatch/dispatch.go:536-604 | all or nothing; on success each live unsupervised row of the run is cancelled with its record, each supervised one gets an intent, and the count is the number of cancelled rows; in a sound state it succeeds |
| `DispatchStore.Store.RollbackCandidates` | internal/dispatch/dispatch.go:543-568 | the live rows of the run, all of them, in order |
| `DispatchStore.Store.RecordProcessIdentity` | internal/dispatch/process_identity.go:53-69 | a spawned row, and only such a row, becomes running |
| `DispatchStore.Store.UpdateStatus` | internal/dispatch/dispatch.go:247-319 | which of the answers is given and when; terminal rows are never changed; what is written, column by column |
| `DispatchStore.Store.UpdateTokens` | internal/dispatch/dispatch.go:342-376 | which of the answers is given and when; the given columns of the row change and nothing else, and those of a finished flere dispatch never |
| `DispatchStore.Store.Prune` | internal/dispatch/dispatch.go:429-460 | keeps exactly the rows that are recent or active, with what belongs to them, and counts the others |
| `DispatchStore.Store.CheckPolicyCounts` | internal/dispatch/policy.go:71-137 | passes exactly when every limit holds; a rejection names a limit that really fails, with its count |
| `DispatchStore.Store.CheckBudget` | internal/dispatch/admission.go:186-205 | passes exactly when the enforced budget is known, positive and not used up |
| `DispatchStore.Store.PlaceUnderParent` | internal/dispatch/admission.go:146-166 | the scope and depth a request gets from its parent, or which of the two rejections applies |
| `DispatchStore.Store.Decide` | internal/dispatch/admission.go:122-213 | admits exactly when every condition holds; every rejection names one that fails |
| `DispatchStore.Store.Admit` | internal/dispatch/admission.go:54-213 | inserts exactly one live row, with inherited scope and depth and no tokens, exactly when the request may be admitted; otherwise nothing changes |
| `DispatchStore.Store.Retry` | internal/dispatch/retry.go:100-164 | refuses exactly the dispatches that are not retryable; a retry is the admission step of the retry request: one new row, a child at the same depth and in the same scope, with one more attempt |
| `DispatchStore.Store.ReadForRetry` | internal/dispatch/retry.go:101-109 | reads a dispatch exactly when it failed, or timed out where that is retried, has attempts left, and is neither quarantined nor a flere agent |
| `DispatchChains.List` | internal/dispatch/dispatch.go:419-426 | the rows of the scope, all of them, newest first |
| `DispatchChains.ChildMap` | internal/dispatch/retry.go:214-222 | every parent with a listed child is mapped to an oldest one |
| `DispatchChains.ClimbToRoot` | internal/dispatch/retry.go:194-204 | the way up from a dispatch to its topmost retained ancestor |
| `DispatchChains.ListRetryChain` | internal/dispatch/retry.go:190-234 | ends; starts at the topmost retained ancestor, follows oldest children to one that has none, repeats nothing; holds no dispatch that has a retained parent and an older listed sibling; contains the dispatch asked for when its way down is through strictly oldest children, and only when through oldest ones |
| `DispatchChains.LinksRunForward` | internal/dispatch/retry.go:223-231 | parent links run forward in creation order, so a walk repeats no dispatch |
| `DispatchChains.SharedRow` | internal/dispatch/retry.go:194-231 | two walks from one root that meet were the same walk up to there |
| `DispatchChains.OlderChildHidesRetry` | internal/dispatch/retry.go:214-231 | four transactions after which every chain from the parent is the parent and its older child, without the retry |
| `Escalation.NextRungModel` | internal/dispatch/escalate.go:77-87 | the same model below the strike limit, then the next rung of its first place, or none |
| `Escalation.FirstUntried` | internal/dispatch/escalate.go:239-257 | the first candidate whose identity no model of the chain has; every one before it is tried |
| `Escalation.Chains.Record` | internal/dispatch/escalate.go:176-200 | a failure is put on the chain once per dispatch and is stored before anything is decided; when that fails nothing is stored |
| `Escalation.Chains.Choose` | internal/dispatch/escalate.go:201-267 | why the call is refused, if it is (other policy, missing review contract, no frontier), and which model and decision are next, on the ladder or from the resolver's candidates |
| `Escalation.Chains.RetryWithEscalation` | internal/dispatch/escalate.go:151-335 | the answer and the stored chain are those of one attempt on it, wherever the state store or the decision store fails; other chains do not change; a row is admitted, in the backend of the next decision, exactly when the attempt asks for one and the dispatch store grants it |
| `Escalation.AdmittedRow` | internal/dispatch/escalate.go:284-312 | that admission adds one row: a child at the same depth and in the same scope, one attempt later |
| `Escalation.OtherFailuresAreFree` | internal/dispatch/escalate.go:89-91 | a timeout, error, unknown, authentication, rate-limit, permission or infrastructure failure changes neither strikes nor escalations, never escalates and never exhausts |
| `Escalation.StrikesAreCounted` | internal/dispatch/escalate.go:180-197 | a newly recorded capability, criteria or verdict failure adds one strike and a premise failure takes all of the rung, unless the call escalates; the three histories gain the failure |
| `Escalation.BelowTheLimit` | internal/dispatch/escalate.go:77-80 | below the strike limit a recorded failure is retried on the model it failed on |
| `Escalation.AtTheLimit` | internal/dispatch/escalate.go:215-279 | at the limit each of the four goes to the rung after the first place of its model, or exhausts the chain, exactly when there is none or no escalation is left for it |
| `Escalation.AtTheLimitOfRouting` | internal/dispatch/escalate.go:216-257 | with a routing configuration it goes to the first offered candidate whose identity no recorded model has, or exhausts the chain |
| `Escalation.RefusalMeans` | internal/dispatch/escalate.go:201-236 | which of the three refusals applies: another policy hash, a review due without a new contract, or no frontier |
| `Escalation.ReachableKept` | internal/dispatch/escalate.go:96-107 | the three histories have one length and no dispatch twice; only recorded dispatches are retried; escalations stay within the limit |
| `Escalation.MeasureFalls` | internal/dispatch/escalate.go:258-327 | when a capability failure gets a retry the measure falls: for one this call records, exactly unless the rung is out of strikes and the model above is the same model; for one recorded earlier, exactly when the rung is out of strikes and the model above is another |
| `Escalation.MeasureNeverRises` | internal/dispatch/escalate.go:170-327 | no call raises it |
| `Escalation.PlainMeasureFalls` | internal/dispatch/escalate.go:258-327 | the simpler measure falls exactly for a newly recorded failure that finds a strike left on the rung or, if it is not a premise failure, does not step up |
| `Escalation.PlainMeasureStalls` | internal/dispatch/escalate.go:258-327 | a run of two calls, the first refused by admission, in which the simpler measure does not fall |
| `Escalation.ChainIsBounded` | internal/dispatch/escalate.go:258-327 | over any run whose newly recorded failures never escalate to the same model, all retries of capability failures, plus the measure, plus the failures still waiting, are at most the first measure plus the calls that recorded a failure without retrying it |
| `Escalation.DistinctLadderIsBounded` | internal/dispatch/escalate.go:77-87 | on a ladder of distinct models the retries of capability failures are bounded so in every run |
| `Escalation.RoutingIsBounded` | internal/dispatch/escalate.go:216-257 | with a routing configuration they are bounded so in every run, whatever the resolver offers |
| `Escalation.RefusedFailuresAreFree` | internal/dispatch/escalate.go:198-313 | no bound holds without that second part: a run in which any number of failures is refused first and then all are retried, from a first measure of three, without exhausting the chain |
| `Escalation.SpentChainExhausts` | internal/dispatch/escalate.go:201-275 | when the measure is spent a capability failure that was not retried yet, whenever it was recorded, is never retried; the call reports exhaustion exactly when it is neither refused nor cut short, and the chain is exhausted exactly when that is saved too |
| `Escalation.RepeatedRungNeverExhausts` | internal/dispatch/escalate.go:77-87 | on a ladder where the rung above a model is that model, a chain that comes to it, or starts with it, never exhausts |
| `Escalation.NewRungHasAllItsStrikes` | internal/dispatch/escalate.go:261-279 | after an escalation the next strikesPerRung - 1 failures of a run are retried on the same rung, or not admitted; none escalates or exhausts |
| `Escalation.ExhaustedForGood` | internal/dispatch/escalate.go:170-172 | an exhausted chain never changes again and refuses every call that can read it |
| `Escalation.RetriedOnce` | internal/dispatch/escalate.go:173-175 | over any run no dispatch is reported as retried twice on a chain |
| `Escalation.AdmittedOnce` | internal/dispatch/escalate.go:173-327 | two rows are admitted for one dispatch only when the outcome of the first call was not saved |
| `Escalation.LostOutcomeAdmitsAgain` | internal/dispatch/escalate.go:320-327 | a call whose outcome was not saved admits another row when it is made again next |
| `Escalation.NoModelRevisited` | internal/dispatch/escalate.go:77-87 | on a ladder of distinct models a chain that has left a model is never on it again, in any run and whatever the number of strikes |
| `Escalation.NoRecordedModelRevisited` | internal/dispatch/escalate.go:77-87 | nor does a model come back among those its failures are recorded with |
| `Escalation.NoIdentityRevisited` | internal/dispatch/escalate.go:237-257 | with a routing configuration and at least one strike per rung, a chain that has left a model identity is never on a model of it again, in any run and whatever the resolver offers |
| `Escalation.NoRecordedIdentityRevisited` | internal/dispatch/escalate.go:237-257 | nor does an identity come back among those its failures are recorded with, whatever the number of strikes |
| `Escalation.ZeroStrikesGoBack` | internal/dispatch/escalate.go:198-279 | without a strike per rung, for any three models of different identity there is a run of four calls, one of them refused, that goes to the second, to the third and back to the second |
| `Events.BatchIsNext` | internal/event/store.go:125-285 | a batch is ordered, within the limit, and holds of each source the next pending rows in id order, no more than its share |
| `Events.PendingForRun` | internal/event/store.go:131-182 | for one run exactly its rows beyond the marks in the phase, dispatch, coordination, review and interspect tables are pending, and no discovery |
| `Events.PendingForAll` | internal/event/store.go:203-268 | for all runs exactly the rows beyond the marks are pending, in all six tables |
| `Events.ListedForRun` | internal/event/store.go:125-190 | no row of another run and no discovery is listed for a run; without a limit at most a thousand rows are |
| `Events.BatchInOrder` | internal/event/store.go:183 | earlier rows first, at one time by the name of the source, and within a source by id |
| `Events.BatchIsFair` | internal/event/store.go:132-190 | the outer limit drops fewer rows than there are sources; when their number divides the limit every source gets its share or all it has |
| `Events.EmptyMeansDrained` | internal/event/store.go:125-285 | whatever the limit, a batch is empty exactly when nothing is pending |
| `Events.ShortBatchDrains` | internal/event/store.go:123-124 | a batch shorter than the limit drained the tables exactly when no source had more than its share pending |
| `Events.ShortBatchLeavesRows` | internal/event/store.go:123-124 | two rows in one table and a limit of two: one row is returned and one left |
| `Events.OneBusySource` | internal/event/store.go:132-190 | a source that is busy alone fills only its share |
| `Events.OfSort` | internal/event/store.go:189-190 | the merge keeps each source's rows in their own order |
| `Events.Share` | internal/event/store.go:893-898 | the share of a source is positive, within the limit, and the shares together reach the limit with less than one source over |
| `EventsTail.EventLog.Add` | internal/event/store.go:52-97 | one row is appended with a larger id than any before |
| `EventsTail.Tail.PollOnce` | cmd/ic/events.go:126-180 | one turn of the loop: what is written, where the marks stand, and that the cursor is saved only after a whole non-empty batch |
| `EventsTail.Tail.WriteOut` | cmd/ic/events.go:139-166 | marks are raised only for events that were written |
| `EventsTail.Tail.constructor` | cmd/ic/events.go:119-122 | where a command starts: at its flags, or at the saved cursor, or at zero |
| `EventsTail.AfterWriting` | cmd/ic/events.go:139-166 | after any part of a batch is written, each source's pending rows are exactly the rest |
| `EventsTail.ReachableSound` | cmd/ic/events.go:126-182 | what a process wrote and has pending is exactly what it had to report, and its mark is at its start or not beyond the rows there, in every state reachable by appends, polls, failed writes, failed saves and restarts with any flags |
| `EventsTail.ExactlyOnce` | cmd/ic/events.go:126-182 | what a process wrote of a source and what is pending are together exactly its visible rows beyond the start mark, each once, in id order |
| `EventsTail.NothingSkipped` | cmd/ic/events.go:119-180 | over any sequence of commands, crashes and lost cursors every row the present command shows was written by some process or is still pending, unless the command resumes from a cursor under which some command ran that passes the row by: its flags are beyond it, or it lists the row's table without the row |
| `EventsTail.HarmfulCommandSkips` | cmd/ic/events.go:119-180 | for any row, after any one command that passes it by, a run exists in which a command that resumes from its cursor and shows the row has neither seen it written nor finds it pending |
| `EventsTail.StartsAt` | cmd/ic/events.go:119-122 | a command starts at its flags; with a consumer and no flag at the saved cursor if it can be read, else at the beginning |
| `GoalClose.GrantsIncrease` | internal/goal/goal.go:152-173 | a later grant has a strictly larger fence |
| `GoalClose.StaleFencesFail` | internal/goal/goal.go:176-247 | after a later grant nothing done under an earlier fence succeeds or changes anything |
| `GoalClose.LeaseProtects` | internal/goal/goal.go:155-164 | between two grants without a release or a finish, the lease last written had expired by the clock of the second client |
| `GoalClose.ExpiredLeaseIsGranted` | internal/goal/goal.go:155-164 | once every lease written since a grant has run out, whoever asks is granted, whatever the holder does |
| `GoalClose.FreeGoalIsGranted` | internal/goal/goal.go:152-173 | a goal just created or released is granted to whoever asks |
| `GoalClose.CreatedOpen` | internal/goal/goal.go:86-102 | a goal is created once, open, with no fence granted and no step stamped |
| `GoalClose.UnknownGoal` | internal/goal/goal.go:152-247 | nothing is done about a goal that is not there |
| `GoalClose.ClosedMeansDone` | internal/goal/goal.go:189-218 | a closed goal was finished under the then current fence after each of the steps was stamped under the then current fence |
| `GoalClose.ClosedForGood` | internal/goal/goal.go:152-247 | a closed goal never changes and nothing on it succeeds |
| `GoalClose.IncompleteIsTrue` | internal/goal/goal.go:206-234 | whatever happens between the update and the read, a client told that its close is incomplete held the lease at its update and lacked a step |
| `GoalClose.ReadBackSays` | internal/goal/goal.go:222-233 | the goal read back says incomplete exactly to the holder of its lease |
| `GoalClose.Store.AcquireClose` | internal/goal/goal.go:152-173 | acquires an open goal or an expired lease, with the next fence; otherwise changes nothing |
| `GoalClose.Store.RenewLease` | internal/goal/goal.go:176-186 | moves the expiry exactly under the current fence of a closing goal |
| `GoalClose.Store.StampStep` | internal/goal/goal.go:189-203 | each of the four names stamps its own step and no other, exactly under the current fence of a closing goal |
| `GoalClose.Store.FinishClose` | internal/goal/goal.go:206-234 | closes exactly when the fence is current and all steps are stamped; alone, reports incomplete exactly when the fence is current and a step is missing |
| `GoalClose.Store.ReleaseLease` | internal/goal/goal.go:237-247 | reopens exactly under the current fence of a closing goal |
| `Audit.VerifyIntegrity` | internal/audit/audit.go:214-280 | accepts exactly the chains; otherwise names the first entry that fails and what is wrong with it |
| `Audit.SessionRowsAreSorted` | internal/audit/audit.go:214-232 | the rows that are verified are those of the session, each as often as it is stored, by their numbers |
| `Audit.LastChecksumFixesTheLog` | internal/audit/audit.go:195-280 | with an injective checksum two accepted logs that end in the same checksum have the same length and the same hashed fields throughout |
| `Audit.DeletionIsNoticed` | internal/audit/audit.go:245-253 | a log with one entry deleted is accepted exactly when that was the last one |
| `Audit.AcceptedUntilABreak` | internal/audit/audit.go:103-192 | through any restarts a log is accepted exactly until an entry is stored after a failed insert of the same logger, or with content that does not survive the round trip |
| `Audit.FailedInsertLeavesAGap` | internal/audit/audit.go:138-192 | an insert that fails and one that works: the log verifies before and not after |
| `Audit.LoggerFollows` | internal/audit/audit.go:103-192 | a logger always knows the last checksum, and its number is ahead of the rows exactly after a failed insert |
| `Audit.AuditLogger.Log` | internal/audit/audit.go:130-192 | one call: the number is spent; the row has the given kind, actor, target, content and time, the last hash and the next number; it and the last hash change only when the insert works |
| `Audit.AuditLogger.constructor` | internal/audit/audit.go:81-127 | a new logger continues where the rows of its session end |
| `Lifecycle.PrunedRateIsExact` | internal/lifecycle/lifecycle.go:175-221 | samples that were pruned count in no later window |
| `Lifecycle.RateIsPerMinute` | internal/lifecycle/lifecycle.go:205-221 | the rate times the window in minutes is the sum of the tokens in the window, and zero for no window |
| `Lifecycle.Machine.Velocity` | internal/lifecycle/lifecycle.go:205-221 | the rate from the pruned buffer is the rate of the whole history |
| `Lifecycle.Machine.RecordActivity` | internal/lifecycle/lifecycle.go:175-195 | the sample is kept, and only samples older than two windows are dropped, all of them |
| `Lifecycle.Machine.Transition` | internal/lifecycle/lifecycle.go:141-172 | an unlisted change is refused, the same state is no change, and the history grows by exactly the change made |
| `Lifecycle.Machine.CheckStall` | internal/lifecycle/lifecycle.go:225-251 | stalls exactly the active agents that were silent too long, or for longer than the window at too low a rate |
| `Lifecycle.CompletionIsLast` | internal/lifecycle/lifecycle.go:33-41 | a valid history has no change after completion and stalls only work in progress |
| `Lifecycle.WaysAreAllowed` | internal/lifecycle/lifecycle.go:33-41 | the table of transitions read by target: from where each phase can be entered |

## Left out

- Locks.Store.Reserve: the busy retry, the event callback and `filepath.ToSlash` on systems whose separator is not the slash are not modelled.
- GlobScalars.OverlapWithoutSurrogates: its condition is sufficient only; two elements may share only surrogates and yet never read the same place of a common path. The exact condition is that of `GlobScalars.ScalarOverlapExact`.
- GlobEngine.ValidateComplexity: the text of its errors.
- DispatchStore.Store.Admit: the columns of a dispatch that no modelled step reads, and the external budget checker, which runs before the transaction and can only refuse.
- DispatchStore.Store.Terminalize: envelopes, the columns copied verbatim from the outcome (one value stands for them) and delivery rows.
- DispatchStore.Store.UpdateStatus: the event recorder called after the commit.
- DispatchStore.Store.UpdateTokens: an update of no column, which succeeds without a look at the table.
- DispatchChains.ListRetryChain: the best-effort answer when the listing query fails.
- Escalation.Chains.RetryWithEscalation: the inside of the routing resolver, whose answer is an input; lesson files and backoff times. Which store operation fails, if one does, is an input.
- Escalation.Chains.Choose: the context and the reasons that are passed to the resolver.
- Escalation.RoutingIsBounded: assumes that the resolver gives a candidate the identity that the configuration gives its model.
- Escalation.NoIdentityRevisited: assumes the same, and at least one strike per rung.
- EventsTail.EventLog.Add: redaction, envelopes, replay inputs and deletion of event rows; a cursor that expires is a restart that cannot read it.
- EventsTail.Tail.PollOnce: the poll interval and the encoding of an event.
- GoalClose.Store.FinishClose: titles, charters, successors, dormancy and the other columns that the protocol does not touch.
- Audit.AuditLogger.Log: redaction; encoding is a function of the payload text, and numbers do not wrap at 64 bits.
- Lifecycle.Machine.Velocity: rounding of the rate; it is a real number here.
- `RetryPolicy.Backoff`, the scheduler, routing resolution and the receipts of workers.
- `internal/lock`: its stale break reads the owner and renames later without a second look.
- The phase machine, whose gate evaluator and store it rests on, and the goal linter.
- The other `ic` subcommands: parsing and printing.
