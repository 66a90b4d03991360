# Verification of go-auth's core logic

This project models the parts of go-auth where a defect would be hardest to see, and proves what
their documentation promises about them. `dafny verify dfyconfig.toml` checks all of it. Every
source file named below is cited by its path in the repository.

## What is modelled

**Expressions** (`Tokenizer`, `TokenSpelling`, `ExpressionParser`, `Expressions`, `CanonicalStrings`, `ParsePrint`,
`ExpressionSemantics`, `ExpressionMeaning`, `FixedPoints`, `MysqlText`, `MysqlMeaning`,
`MysqlFixedPoints`, `SliceSafety`, `SnapshotChecks`, `ContractLimits`). Drift detection compares
CHECK clauses, defaults and index predicates by a canonical string. The tokenizer and the parser are
loops and a class with a position, as in Go, each equal to a recursive definition; expressions have a
three-valued SQL semantics over integers, decimals, text and arrays, and the canonical string is the
image of a term with the same semantics. The parser takes any token for an atom and forgets quotes
around names, so the results about meaning are about printings of a grammar with plain
names, in lower case or by `TokenSpelling` in any, with non-empty IN lists and one-argument ANY, which is the authoring contract of
`internal/migrations/definitions.go:10-11`; `SliceSafety` and `ContractLimits` are about what the
code does with any text.

**Migrations** (`MigrationHistory`, `MigrationRun`, `MigrationSafety`, `MigrationSessions`,
`MigrationGuarantees`, `MigrationProgress`, `MigrationExactness`, `MigrationRunner`). A database is schema objects by
name, application data and an optional journal; `verifyStep` means that the owned objects are those
of the step's snapshot and its checks hold. Every statement and query draws a fault: it may fail
before or after its effect, and a schema statement may leave anything behind. A crash is a failure
after which only the engine rolls back, which is also all the code does after a failure. Runs are
serialised by their lease; application writes between runs do not touch owned schema objects.
`MigrationRunner.Runner` is the imperative runner; it equals the functions the results are about and
keeps, from run to run, the invariant they establish. `MigrationExactness` says, without those
functions, on what a successful run was founded and what it left.

**Rate limits** (`RateLimitStore`, `RateLimitBounds`, `RateLimitCapacity`, `RateLimitReference`,
`RateLimitWindows`, `RateLimitRedis`, `RateLimitKeys`). The in-memory store is a class over sharded maps, with the order
in which a map is walked as part of each event. Events come in the order of the shard locks, and each
carries the time it read; `Allow` reads the clock before it locks (`ratelimit/memory.go:234-236`), so
these times need not increase. The Redis script is one step on a stored number with a frozen
microsecond clock. Strings stand for byte strings.

**Audit delivery** (`AuditClocks`, `AuditConfig`, `AuditRecord`, `AuditOutbox`, `AuditDelivery`,
`AuditConservation`, `AuditRemovals`, `AuditRaces`, `AuditSingleRow`, `AuditLeases`,
`AuditPromptness`, `AuditFairness`, `AuditRetention`, `AuditSchedules`, `AuditLateDeath`,
`AuditUndisturbed`, `AuditCalls`, `AuditService`). The outbox is modelled from the SQL store in
`internal/sqlstore/audit_outbox_repo.go`. One step is one SQL statement, one hand-over to the sinks
or one change of the counters, so workers, the janitor's counts, selections and deletes, crashes and
retention deletes interleave between any two statements, and every statement may fail before or after
its effect. A ledger beside the state holds what the counters should account for.
`AuditService.Service` is the imperative service; before each of its statements everybody else may
act as they like, and every one of its calls is a run of the machine. `AuditUndisturbed` and
`AuditCalls` say what each call does when nobody else acts and nothing fails, in terms of the queue
before it. Event identifiers and claim
tokens are never used twice.

**Password hashes and mail** (`Base64`, `PasswordHashes`, `HasherRegistry`, `MailQueue`). The PHC
codec and the registry's table and rehash decision; the mailer's queue as a state machine over its
channel and mutex operations, with its delivery loop.

## Where the code does not do what is said of it

Each line names an input or a run on which a promise fails, and the lemma that says for all inputs
when it is kept.

- Every cast that is not rewritten is dropped, also one that converts. A function of a column and of the column cast share a canonical string; they agree in truth on all rows if and only if the cast keeps every value of the column's type (`ContractLimits.DroppedCastExactly`).
- In MySQL mode a back-quoted name spelled `=(0,` makes the zero test slice out of range, a panic in Go (`ContractLimits.QuotedNameSlicesOutOfRange`); in both modes a double-quoted name that is one single quote does the same in a cast to an integer (`ContractLimits.QuotedQuoteSlicesOutOfRange`). A truth position fails if and only if what remains inside its wrappers is exactly `=(0,` or `!=(0,` (`SliceSafety.ConditionFailsExactly`), a cast if and only if its operand is exactly `'` (`SliceSafety.CastFailsExactly`), and no text without quoted names can reach either (`SliceSafety.NoQuotedNameNoPanic`).
- A function named `isnull` reads like the test `IS NULL`, whatever it computes (`ContractLimits.IsNullCallCollides`); printings of the grammar, which has no such function, never collide (`ExpressionMeaning.EqualCanonicalEqualTruth`).
- A canonical string read as MySQL text can be decoded a second time (`FixedPoints.EscapesAreDecodedAgain`); it gives itself if and only if no literal of it holds a backslash (`MysqlFixedPoints.MysqlFixedExactly`).
- Joining tokens with spaces and tokenizing again can take a quoted name apart (`SnapshotChecks.QuotedNameFallsApart`); it gives the same tokens if and only if each of them alone is one token (`SnapshotChecks.JoinedExactly`), as those of every printing are.
- A SQLite run that commits and then fails to restore its session reports a failure and the starting status although the database changed (`MigrationGuarantees.CommittedYetFailed`); `MigrationGuarantees.SqliteAtomic` says exactly when the database changes.
- A shard that holds the empty key can exceed its cap (`RateLimitBounds.EmptyKeyOverflows`); a run stays within the caps if and only if no new key finds its shard full with a sample that ends in a best-placed empty key (`RateLimitCapacity.CapacityExactly`). The middleware's keys are never empty.
- A request that reads the clock, waits for the lock and finds that a sweep has meanwhile removed its counter starts a second one within the first one's window (`RateLimitBounds.LateRequestStartsAgain`); with no live eviction, a decision differs from the unbounded map's if and only if the request is such a late one (`RateLimitBounds.RefinesUnboundedMap`).
- A sweep counts a row that a worker delivers before the DELETE, so that one obligation is both delivered and dropped although nothing failed (`AuditRaces.SweepCountsDelivered`); a sweep counts too many exactly by the rows it counted that were delivered or dead-lettered before its DELETE (`AuditConservation.SweepRaceExactly`), and a purge by the orphans a worker delivered before their turn (`AuditRemovals.PurgeRaceExactly`).
- A call that fails after removing rows hides them from the counters. Over whole runs the counters account for every obligation when nothing was hidden and nothing overcounted, and unless both happened only then (`AuditConservation.CountersAddUpExactly`).
- `PendingDropped` can exceed `DeliveryDropped` (`AuditRaces.PendingExceedsDropped`): an eviction that fails among the pending rows returns their number in its second count only, and by exactly those rows the dropped count falls short (`AuditConservation.PendingWithinDropped`).
- A claim that stalls for longer than its lease between reading the clock and its update takes a row over unseen: two workers hold it while the duplicate counter stays at zero (`AuditRaces.UncountedDuplicate`). Two holders without a counted duplicate need such a claim (`AuditLeases.OneHolderUntilCounted`), so none exist while every claim comes within a lease of its clock (`AuditPromptness.DuplicatesCounted`).
- A dead-letter time near the top of the range overflows the retention check and is accepted (`AuditConfig.OverflowAccepted`); for a retention that fits 64 bits, acceptance keeps the checked lifetime below it if and only if both windows fit 64 bits (`AuditConfig.AcceptedLifetime`).
- A row that is claimed late lives through both outbox clocks one after the other, which no check covers: the defaults with eight days of retention are accepted and lose the record of a queued row (`AuditLateDeath.AcceptedDefaultsLoseRecords`). With punctual sweeps and attempts that fit the age limit, every queued row keeps its record under every schedule of claims if and only if both clocks and twice the sweeps' slack fit the retention (`AuditLateDeath.RetentionExactly`).
- Two sinks that each fit the lease can outlast it together (`AuditConfig.TwoSinksOutlastLease`); no delivery does if and only if the worst cases together are below the lease (`AuditConfig.LeaseCoversExactly`).
- An insert that is reported as failed may have taken effect, and on an engine that does not poison transactions a savepoint whose release fails leaves it in place: the record is then counted as lost and is there. Otherwise the counters say exactly what is in the tables (`AuditRecord.CountersTellTheTruth`).
- The comment at `audit/dispatcher.go:13-15` gives a retry window of about 3h10m for ten attempts; the code's sum is 2h25m10s (`AuditConfig.DefaultRetryWindow`).

## Model

| member | source | states |
|---|---|---|
| Tokenizer.Tokenize | internal/migrations/expression.go:39-108 | the index loop computes the recursive tokenization on every input, so it terminates and never reads past the end; what it makes of letter case is in the TokenSpelling rows |
| Tokenizer.OnlyOpenQuotesFail | internal/migrations/expression.go:39-108 | tokenizing fails only on a quote that is never closed; the other error is unreachable |
| TokenSpelling.CaseVariantsLexAlike | internal/migrations/expression.go:39-108 | texts that differ only in letter case, and nowhere inside single quotes, have the same tokens or the same error |
| TokenSpelling.TokensAreLower | internal/migrations/expression.go:51-108 | every token but a literal is in lower case, those of quoted names included |
| TokenSpelling.CommentSkipped | internal/migrations/expression.go:47-51 | a comment reads like nothing up to the end of its line |
| TokenSpelling.IntroducerSkipped | internal/migrations/expression.go:98-105 | a character-set introducer, in any case, in front of a literal reads like nothing |
| TokenSpelling.AnyCaseCanonical | internal/migrations/expression.go:12-37 | a printing whose words and names are written in any mixture of cases has the canonical string of its expression |
| TokenSpelling.AnyCaseChecks | internal/migrations/definitions.go:244-272 | the first CHECK of a definition is found and read whatever the case it is written in |
| ExpressionParser.ParseExpression | internal/migrations/expression.go:24-37 | the parser object, run on any text and mode, returns what the recursive definition of the canonical string returns, error for error |
| ExpressionParser.Parser.RunParse | internal/migrations/expression.go:149-205 | the precedence-climbing loop consumes and returns what the recursive definition does from any position |
| ExpressionParser.Parser.RunAtom | internal/migrations/expression.go:207-269 | an atom consumes and returns what its definition does, with casts, calls, arrays and parentheses |
| ExpressionParser.Parser.RunList | internal/migrations/expression.go:271-289 | the list loop collects the items up to its end token, or the same error |
| ExpressionParser.Parser.RunCasts | internal/migrations/expression.go:242-267 | the cast loop drops or rewrites casts as defined |
| ExpressionParser.Parser.RunCondition | internal/migrations/expression.go:118-139 | the zero-comparison rewriting, including where it would slice out of range |
| CanonicalStrings.LexCanonical | internal/migrations/expression.go:39-108 | a canonical string tokenizes into the tokens of its term |
| CanonicalStrings.ShowInjective | internal/migrations/expression.go:149-205 | two terms with one canonical string are one term |
| CanonicalStrings.ZeroLeftTest | internal/migrations/expression.go:122-131 | the prefix test matches exactly a comparison whose left operand is zero and slices out exactly the right operand |
| CanonicalStrings.ZeroRightTest | internal/migrations/expression.go:122-131 | the prefix and suffix tests match exactly a comparison whose right operand is zero and slice out exactly the left operand |
| CanonicalStrings.ConditionShow | internal/migrations/expression.go:118-139 | on canonical strings the rewriting never slices out of range and is the tree rewriting |
| CanonicalStrings.ConditionedIdempotent | internal/migrations/expression.go:118-139 | rewriting a truth position twice changes nothing more |
| CanonicalStrings.AnyArrayExact | internal/migrations/expression.go:192-195 | the any-array test matches exactly that tree and slices out exactly its items |
| ParsePrint.ParseAt | internal/migrations/expression.go:149-289 | at every precedence, parsing a printing followed by more tokens yields its normal form and goes on with those tokens |
| ParsePrint.CanonicalOfPrint | internal/migrations/expression.go:16-37 | every printing of a well-formed expression is accepted, with its normalized term as canonical string |
| ExpressionMeaning.CastMeaning | internal/migrations/expression.go:242-267 | a dropped or rewritten type-preserving cast keeps the operand's value |
| ExpressionMeaning.AnyIsIn | internal/migrations/expression.go:192-195 | equality with ANY of an array has the three-valued truth of IN |
| ExpressionMeaning.ConditionedTruth | internal/migrations/expression.go:116-139 | the zero-comparison rewriting keeps the truth of a term in a boolean position |
| ExpressionMeaning.NormalizeMeaning | internal/migrations/expression.go:149-269 | the normal form of an expression evaluates to the expression's value on every row |
| ExpressionMeaning.CanonicalKeepsTruth | internal/migrations/expression.go:12-37 | the canonical string of a printed expression, decimals and converting casts included, denotes a term of the same three-valued truth on every row |
| ExpressionMeaning.EqualCanonicalEqualTruth | internal/migrations/expression.go:12-37 | two texts with equal canonical strings never differ in truth on any row |
| FixedPoints.CanonicalIsFixed | internal/migrations/expression.go:118-289 | a canonical string parses, in the same mode, to itself |
| FixedPoints.EscapesAreDecodedAgain | internal/migrations/mysql_expression.go:34-90 | a canonical literal holding a backslash is decoded a second time when read as MySQL text |
| MysqlFixedPoints.MysqlFixedExactly | internal/migrations/mysql_expression.go:34-90 | the canonical string of an expression, read as MySQL text, gives itself if and only if none of its literals holds a backslash |
| MysqlText.ReadMetadataSql | internal/migrations/mysql_expression.go:18-32 | the loop undoing metadata escaping computes its recursive definition, error for error |
| MysqlText.MetadataRoundTrip | internal/migrations/mysql_expression.go:18-32 | it inverts backslash-escaping of quotes and backslashes for every text |
| MysqlText.ReadLiterals | internal/migrations/mysql_expression.go:34-90 | the loop respelling literals computes its recursive definition, error for error |
| MysqlText.LiteralsOfSpelling | internal/migrations/mysql_expression.go:34-90 | text outside literals is kept and each literal becomes the standard quoting of its character value |
| MysqlText.SpellingOfLiterals | internal/migrations/mysql_expression.go:34-90 | every accepted text is such a spelling |
| MysqlText.AcceptedExactly | internal/migrations/mysql_expression.go:34-90 | a text is accepted if and only if it is such a spelling |
| MysqlText.RespelledLiteralIsOneToken | internal/migrations/mysql_expression.go:34-90 | each respelled literal is one token of the expression tokenizer |
| MysqlText.ReadExpression | internal/migrations/expression.go:12-37 | reading a text in either mode: MySQL literals are respelled first, then it is tokenized and parsed, error for error |
| MysqlText.ParseMysqlCheck | internal/migrations/mysql_expression.go:8-16 | reading a stored clause is unescaping, respelling and parsing, with their errors |
| MysqlText.StoredCheckReadsBack | internal/migrations/mysql_expression.go:8-32 | a stored CHECK clause is read as the text that was escaped into it |
| MysqlMeaning.EqualMysqlEqualTruth | internal/migrations/mysql_expression.go:8-90 | two MySQL texts with equal canonical strings never differ in truth on any row |
| MysqlMeaning.StoredCheckKeepsTruth | internal/migrations/mysql_expression.go:8-90 | the same between a stored clause and an authored one |
| SnapshotChecks.CheckExpressions | internal/migrations/definitions.go:244-272 | the loops over CHECK bodies return the balanced bodies of the recursive definition, or its error |
| SnapshotChecks.ReadChecks | internal/migrations/definitions.go:244-272 | from the text on: tokenizing, with its error, and then the bodies of every CHECK in it |
| SnapshotChecks.JoinedExactly | internal/migrations/definitions.go:244-272 | tokens joined with spaces are tokenized into themselves if and only if each of them alone is one token |
| SnapshotChecks.JoinedTokensReadBack | internal/migrations/definitions.go:244-272 | so a text survives exactly when its tokens do, as they do in every text without quoted names |
| SnapshotChecks.PrintStable | internal/migrations/definitions.go:244-272 | every token of a printing is such a token |
| SnapshotChecks.QuotedNameFallsApart | internal/migrations/definitions.go:244-272 | with a quoted name they do not |
| SnapshotChecks.BalancedPrint | internal/migrations/definitions.go:244-272 | every printing has balanced parentheses |
| SnapshotChecks.ClauseChecks | internal/migrations/definitions.go:244-272 | a CHECK body is cut out exactly and the search goes on after it |
| SnapshotChecks.CheckBodyReadsBack | internal/migrations/definitions.go:244-272 | the first CHECK of any definition, quoted names around it included, is cut out exactly and its body has the canonical string of the expression printed in it |
| ContractLimits.QuotedNameSlicesOutOfRange | internal/migrations/expression.go:118-139 | a quoted name can drive the rewriting out of range |
| ContractLimits.QuotedQuoteSlicesOutOfRange | internal/migrations/expression.go:242-267 | a name that is a quote, cast to an integer, slices out of range in both modes |
| SliceSafety.ConditionFailsExactly | internal/migrations/expression.go:118-139 | for every string, a truth position slices out of range if and only if its innermost text is a zero comparison cut off before its operand |
| SliceSafety.CastFailsExactly | internal/migrations/expression.go:242-267 | a cast slices out of range if and only if it is to an integer type and its operand is a single quote |
| SliceSafety.NoQuotedNameNoPanic | internal/migrations/expression.go:16-269 | for every text without quoted names, inside the grammar or not, no slice of either mode is out of range |
| ContractLimits.DroppedCastExactly | internal/migrations/expression.go:242-267 | a column and its cast have one canonical string under a function, and one truth on all rows if and only if the cast keeps every value of the column's type |
| ContractLimits.IsNullCallCollides | internal/migrations/expression.go:169-175 | a call of a function named isnull has the canonical string of the test |
| MigrationHistory.ReadCatalog | internal/migrations/catalog.go:100-199 | header and entries are accepted if and only if format, dialect, names, numbering, checksums, parses, queries and ends all fit, and the catalog returned is theirs, owning the names of its snapshots |
| MigrationHistory.CheckStep | internal/migrations/catalog.go:128-192 | an entry is accepted if and only if kind, transaction mode, snapshot name, checksums, rebuild flag, retry policy and SELECT queries fit its position and dialect |
| MigrationHistory.ReadHistory | internal/migrations/history.go:112-178 | a journal is accepted if and only if it is a prefix of the catalog with only the last row possibly incomplete, and the status is exactly that of the rows read |
| MigrationHistory.CompletedThenPending | internal/migrations/history.go:172-176 | completed identifiers followed by pending ones are always the catalog's |
| MigrationSafety.CompleteRecordKeeps | internal/migrations/history.go:191-206 | completing over verified content completes the last record and no other, or changes nothing |
| MigrationSafety.ExecuteStepKeeps | internal/migrations/runner.go:287-308 | whatever fails, the journal keeps its started record unless the step completed over content that verified |
| MigrationSafety.TransactionalStepAtomic | internal/migrations/runner.go:254-285 | a transactional step is done and verified, or the database is untouched |
| MigrationSafety.ApplyStepKeeps | internal/migrations/runner.go:254-308 | a step from a settled database leaves a settled one, grown by at most its record, in every regime |
| MigrationSessions.ApplyFromKeeps | internal/migrations/runner.go:208-227 | the loop of apply keeps the journal a prefix, accounts for each completion and returns the status of the journal it leaves |
| MigrationSessions.RunRetryKeeps | internal/migrations/recovery.go:25-47 | a retry keeps the same |
| MigrationSessions.RunAdoptKeeps | internal/migrations/runner.go:159-201 | an adoption keeps the same and records the baseline over verified content only |
| MigrationSessions.RunKeeps | internal/migrations/runner.go:70-227 | every run, with any failure or crash, leaves a settled database whose journal only grew, with content changed only under a journal record |
| MigrationSessions.SessionSafety | internal/migrations/runner.go:70-308 | over all sequences of runs, failures and application writes: the journal is a prefix of the catalog with only the last record possibly incomplete, each complete record was completed over verified content, and a clean journal means the schema of its revision |
| MigrationGuarantees.SqliteAtomic | internal/migrations/runner.go:95-109 | a SQLite run changes the database exactly when its commit took effect; on failure the status is the starting one, and the database too unless closing failed |
| MigrationGuarantees.CommittedYetFailed | internal/migrations/lock.go:195-256 | a failure to restore session settings after the commit is reported as a failed run over a changed database |
| MigrationGuarantees.UnpermittedRunsChangeNothing | internal/migrations/runner.go:127-167 | a dirty journal freezes apply, adopt and verify; an unreadable one everything; repair and retry need the exact last identifier and retry never runs for the baseline or a transactional step |
| MigrationGuarantees.RepairAndRetryAreExact | internal/migrations/recovery.go:25-47 | repair and retry change only the last record, repair nothing else and only when verified, retry only from the verified previous schema with its preconditions met |
| MigrationProgress.ApplyReachesTarget | internal/migrations/runner.go:202-227 | when every effect succeeds and the catalog is sound, apply empties the pending list at the target revision with the content its steps produce |
| MigrationProgress.SecondApplyIdle | internal/migrations/runner.go:202-227 | whatever fails, an apply at the target executes no statement and changes nothing |
| MigrationProgress.ReportsAreHonest | internal/migrations/runner.go:95-109 | reported success means a clean journal with the reported status; a dirty journal that could be read is reported dirty or uncertain |
| MigrationExactness.SuccessExactly | internal/migrations/runner.go:70-227 | for all five operations and whatever fails, reported success means that journal and schema were what the operation needs, and that the database is now exactly its operation's effect with the status reported; undisturbed, a run succeeds if and only if they were |
| MigrationExactness.VerifiedExactly | internal/migrations/runner.go:133-140 | a verify that reports success had a valid and clean journal of every step and the last step's schema verified, and changed nothing; undisturbed it succeeds whenever that holds |
| MigrationRunner.Runner.RunOperation | internal/migrations/runner.go:70-227 | the imperative run has the database effects, status and error of the modelled run; from a settled database it leaves a settled one that only progressed, whatever fails; success means that the operation was founded and has exactly its effect, and undisturbed it is reported if and only if it was founded |
| MigrationRunner.Runner.Conclude | internal/migrations/runner.go:95-109 | the deferred end of a run: the last look at the context, the release, and which of two errors is reported |
| MigrationRunner.Runner.ApplySteps | internal/migrations/runner.go:208-227 | the loop over the catalog is the modelled loop |
| MigrationRunner.Runner.ApplyMigration | internal/migrations/runner.go:254-285 | one step with its own transaction where it has one |
| MigrationRunner.Runner.ExecuteMigration | internal/migrations/runner.go:287-308 | statements, verification and completion, with the dirty and uncertain flags of a failure |
| MigrationRunner.Runner.RunStatements | internal/migrations/runner.go:293-300 | the statement loop stops at the first failure |
| MigrationRunner.Runner.RecordBaseline | internal/migrations/runner.go:229-252 | adoption in its own transaction, or in the SQLite run's |
| MigrationRunner.Runner.RepairComplete | internal/migrations/runner.go:141-154 | repair as modelled |
| MigrationRunner.Runner.RetryStep | internal/migrations/recovery.go:25-47 | retry as modelled |
| MigrationRunner.Runner.StartJournal | internal/migrations/history.go:180-189 | inserts the started row in key order, or fails on a duplicate key |
| MigrationRunner.Runner.CompleteJournal | internal/migrations/history.go:191-206 | completes the started rows of the step and fails unless there was exactly one |
| MigrationRunner.Runner.CloseLease | internal/migrations/lock.go:195-256 | ends the SQLite transaction and then tries every statement that releases the session, also after one has failed; any failure is uncertain |
| RateLimitStore.MemoryStore.constructor | ratelimit/memory.go:140-171 | the cap is divided among the shards with at least one each, never above the request unless the request is below the shard count |
| RateLimitStore.MemoryStore.IndexOf | ratelimit/memory.go:362-373 | the hash loop is 32-bit FNV-1a modulo the shard count |
| RateLimitStore.MemoryStore.Allow | ratelimit/memory.go:232-255 | a fresh or expired key starts a counter, evicting first when its shard is full; the count includes this call, and limit, remaining and reset time of the decision are those of the counter, at any time read before the lock; what is evicted and when is in the RateLimitCapacity rows |
| RateLimitStore.MemoryStore.Evict | ratelimit/memory.go:272-302 | the bounded walk removes the victim of the specification and counts it as expired or evicted |
| RateLimitStore.MemoryStore.Sweep | ratelimit/memory.go:343-358 | shard after shard loses exactly its expired counters, all counted |
| RateLimitCapacity.SweepIsItsShards | ratelimit/memory.go:343-358 | a whole sweep does what the sweeps of its shards do in turn, which is how requests may interleave with it |
| RateLimitStore.MemoryStore.Occupancy | ratelimit/memory.go:208-221 | the number of counters held and the true ceiling |
| RateLimitBounds.VictimIsBest | ratelimit/memory.go:257-302 | an expired sampled counter goes first; otherwise the victim has most headroom, ties to the soonest expiry, and over non-empty keys there is one |
| RateLimitBounds.CapacityHolds | ratelimit/memory.go:232-302 | over non-empty keys and any times, in every reachable state each key is in its own hash's shard, each shard within its cap and the total within capacity |
| RateLimitBounds.EmptyKeyOverflows | ratelimit/memory.go:272-302 | with the empty key a shard exceeds its cap |
| RateLimitCapacity.NobodyExactly | ratelimit/memory.go:272-302 | an eviction frees no slot if and only if no sampled counter is expired and the sample ends in a best-placed empty key |
| RateLimitCapacity.RemovesOnlyWhenFull | ratelimit/memory.go:238-302 | a request removes another counter if and only if its key is new, its shard is at a positive cap and the sample does not end in a best-placed empty key; then exactly one goes, the best of the sample, counted as expired or evicted, and every other counter stays |
| RateLimitCapacity.FewKeysNeverFull | ratelimit/memory.go:238-242 | a store asked for no more keys of any shard than fit never meets a full shard with a new key |
| RateLimitCapacity.BelowCapsRefines | ratelimit/memory.go:232-302 | on a run whose new keys never meet a full shard nothing is evicted alive, and each decision that is not late is the unbounded map's |
| RateLimitCapacity.CapacityExactly | ratelimit/memory.go:232-302 | over any keys and times a run stays within the caps if and only if no new key meets such a sample in a full shard |
| RateLimitBounds.EvictionsAreDrops | ratelimit/memory.go:297-301 | the eviction counter counts exactly the live counters dropped |
| RateLimitBounds.RefinesUnboundedMap | ratelimit/memory.go:232-358 | until its counter is dropped alive, and with times in any order, a key gets the decisions of one unbounded map up to its first late request, which gets another one |
| RateLimitBounds.MonotoneNeverLate | ratelimit/memory.go:232-244 | no request is late when the times are in the order of the locks |
| RateLimitBounds.LateRequestStartsAgain | ratelimit/memory.go:232-244 | a request that read the clock before a sweep removed its counter is granted a second budget in one window |
| RateLimitBounds.RefinesWithoutEvictions | ratelimit/memory.go:232-358 | while the eviction counter is zero and times are in order every decision is the unbounded map's |
| RateLimitReference.DecidedByWindow | ratelimit/memory.go:232-256 | defined by the list of requests alone: until its counter is evicted alive or it is late, a request is allowed if and only if it is within the first so many of its window, which begins at the first request after the previous one's end |
| RateLimitReference.HoldsReference | ratelimit/memory.go:232-256 | the counter held then has the number of requests in that window, the window's end and the last limit |
| RateLimitWindows.WindowBound | ratelimit/memory.go:232-302 | in any interval of one window a key is granted at most two budgets, plus one per live drop of its counter, if its own requests come in order and none is late |
| RateLimitWindows.WindowBoundInOrder | ratelimit/memory.go:232-358 | the same from an empty store with all times in order, with nothing else asked |
| RateLimitWindows.StartsApart | ratelimit/memory.go:237-244 | two counters of a key not separated by a live eviction start more than one window apart if and only if the second request is not late |
| RateLimitWindows.CounterBudget | ratelimit/memory.go:245-254 | one counter never grants more than the requests of its rate, whatever the times |
| RateLimitRedis.Store.RunScript | redisstore/store.go:163-182 | the script's stored number, expiry, answer and errors |
| RateLimitRedis.Store.Allow | redisstore/store.go:188-215 | a call's result and statistics, for invalid rates, lost replies and refused replies too |
| RateLimitRedis.WindowIsCeiling | redisstore/store.go:192-195 | the millisecond window is the exact ceiling |
| RateLimitRedis.CounterSaturates | redisstore/store.go:163-182 | under one rate the number stays within one and one more than the limit |
| RateLimitRedis.ScriptNeverRejects | redisstore/store.go:168-173 | under any rates the invalid-counter and missing-expiry errors are unreachable |
| RateLimitRedis.RefusedExactly | redisstore/store.go:203-206 | a reply is refused if and only if the key still runs on a longer window than asked |
| RateLimitRedis.RedisMatchesMemory | redisstore/store.go:163-214 | under one rate every call succeeds with the decision of an unsaturated in-memory counter, its reset time to the millisecond |
| RateLimitKeys.KeyBounded | middleware/ratelimit.go:127-133 | keys are never empty and exceed the address by a constant at most |
| RateLimitKeys.SharedKey | middleware/ratelimit.go:127-167 | for one address two requests share a key only under one folded method and, up to a digest collision, one pattern |
| RateLimitKeys.MiddlewareKeepsCapacity | middleware/ratelimit.go:127-167 | with the middleware's keys the store's capacity always holds |
| AuditClocks.MulSaturates | audit/webhook.go:137-146 | saturating multiplication is the exact product cut off at the maximum |
| AuditClocks.AddSaturates | audit/webhook.go:129-135 | saturating addition is the exact sum cut off at the maximum |
| AuditClocks.MaxBatchDeliveryTime | audit/webhook.go:116-127 | the declared bound is the minimum of the maximum duration and batch times ((retries + 1) timeouts + all doubling waits), also where the retry count plus one wraps |
| AuditClocks.Post | audit/webhook.go:148-184 | the retry loop's outcome and duration; success means that the deciding attempt was accepted |
| AuditClocks.PostEndsAt | audit/webhook.go:148-184 | the first attempt that settles the event decides; a context ended during a wait stops the retries with a failure there and then |
| AuditClocks.PostSucceedsExactly | audit/webhook.go:148-184 | an event is delivered if and only if some attempt the loop gets to, its wait included, is accepted |
| AuditClocks.HandleBatch | audit/webhook.go:104-111 | the batch's outcome and duration; success means every event was delivered |
| AuditClocks.PostBound | audit/webhook.go:148-184 | over all responses, cancellations and wrapping waits, one event never takes longer than the exact worst case |
| AuditClocks.BatchBound | audit/webhook.go:104-127 | nor does a batch |
| AuditClocks.SlowestRunReaches | audit/webhook.go:104-184 | the exact worst case of a batch is reached by some responses |
| AuditClocks.NextBackoff | audit/dispatcher.go:35-44 | the delay is the minimum of ten seconds times two to the attempts and one hour |
| AuditClocks.RetryWindowFor | audit/service.go:121-127 | the window is the sum of the delays, in 64 bits |
| AuditConfig.ValidateConfig | audit/service.go:73-117 | a configuration is accepted if and only if lease, sink bounds and clocks fit; the error for a zero row cap is unreachable |
| AuditConfig.DefaultsExactly | audit/service.go:129-158 | positive values are kept; zeros, and negative counts and leases, become the defaults; a negative clock stays negative; a second time changes nothing |
| AuditConfig.GivenIsChecked | audit/service.go:73-117 | of what is given: a negative clock under a finite retention and a lease below a minute are refused, a zero clock is one of seven days |
| AuditConfig.AcceptedLifetime | audit/service.go:95-117 | an accepted configuration keeps scheduled lifetimes below retention if, and for a representable retention only if, retry window and dead-letter time fit 64 bits |
| AuditConfig.OverflowAccepted | audit/service.go:100-109 | an overflowing dead-letter time is accepted |
| AuditConfig.DefaultRetryWindow | audit/service.go:121-127 | ten attempts take 2h25m10s |
| AuditConfig.LeaseCoversExactly | audit/service.go:80-93 | under an accepted configuration no delivery to the sinks in turn outlasts the lease if and only if their worst cases together are below it |
| AuditConfig.OneSinkNeverOutlastsLease | audit/service.go:80-93 | with one sink an accepted configuration is enough, over all responses |
| AuditConfig.TwoSinksOutlastLease | audit/service.go:80-93 | with two it is not |
| AuditRecord.Recorder.Record | audit/record.go:40-133 | the two savepoints, the failure mode and the counter that moves |
| AuditRecord.RecordsWithoutSinks | audit/record.go:58-107 | without delivery sinks an event is its record alone, kept exactly when its insert succeeds |
| AuditRecord.RecordsWithSinks | audit/record.go:72-132 | with sinks an event ends well exactly when both inserts do, and then both are there; a failed obligation leaves the record |
| AuditRecord.ClosedOperationAllOrNothing | audit/record.go:58-123 | failing closed, an operation commits record and obligation of every one of its events, or is blocked and commits nothing, whatever fails |
| AuditRecord.CountersTellTheTruth | audit/record.go:72-132 | after the commit the counters say exactly what is in the tables, unless an insert reported as failed stayed in place, and then exactly not |
| AuditRecord.ObligationsHaveRecords | audit/record.go:16-28 | over any calls, commits, rollbacks and failures every committed obligation has its record |
| AuditConservation.ObligationsConserved | audit/dispatcher.go:93-241 | in every reachable state inserted + overcounted = delivered + queued + dropped + orphaned + removed unseen + in the janitor's hands |
| AuditConservation.EntriesExactly | internal/sqlstore/audit_outbox_repo.go:334-426 | each of overcounted, removed unseen and misreported moves exactly at its kind of event, misreported by the rows of that eviction |
| AuditConservation.SweepRaceExactly | internal/sqlstore/audit_outbox_repo.go:334-376 | whatever workers do between its two statements, a sweep counts too many exactly by the rows it counted that were settled before its DELETE |
| AuditConservation.CountersAddUpExactly | audit/dispatcher.go:203-241 | the counters account for every obligation if no step hid a removal or overcounted, and only then unless steps of both kinds occurred |
| AuditConservation.PendingWithinDropped | audit/dispatcher.go:226-240 | the dropped count lacks exactly what failing evictions returned as pending, so the pending count stays within it on every run without one, and before any dead letter is counted only then |
| AuditRemovals.RemovedOnlyAfterDelivery | audit/dispatcher.go:93-241 | on every run a row leaves only after an earlier event in which every sink accepted a batch holding it, or by the janitor for its reason |
| AuditRemovals.AcceptedExactly | audit/dispatcher.go:124-138 | an identifier is accepted if and only if some event of the run handed a batch holding it to the sinks and all returned nil |
| AuditRemovals.PurgeRaceExactly | internal/sqlstore/audit_outbox_repo.go:168-199 | a purge counts an orphan that is already gone if and only if a worker delivered it between the selection and its turn |
| AuditUndisturbed.CutsToCap | internal/sqlstore/audit_outbox_repo.go:393-426 | an undisturbed eviction leaves min(rows, cap) rows and without a cap all; dead letters go first, longest dead first, then the oldest, and both counters say how many |
| AuditUndisturbed.SweepsExactly | internal/sqlstore/audit_outbox_repo.go:334-391 | an undisturbed sweep removes exactly the rows past their own clock and counts each kind |
| AuditUndisturbed.PurgesExactly | internal/sqlstore/audit_outbox_repo.go:168-199 | an undisturbed purge removes and counts exactly the orphans it selected |
| AuditCalls.DispatchesExactly | audit/dispatcher.go:93-171 | an undisturbed call takes exactly the rows it selected, hands over those with a record, and each of these is gone if every sink accepts, dead once its attempts are used up, and otherwise released with one attempt more until the delay of that attempt; dead letters and a taken-over claim are counted, and no other row, record or call changes |
| AuditRaces.SweepCountsDelivered | internal/sqlstore/audit_outbox_repo.go:334-376 | with no failure at all one obligation is counted as delivered and as dropped |
| AuditRaces.PendingExceedsDropped | internal/sqlstore/audit_outbox_repo.go:393-426 | a failing eviction makes the pending count exceed the dropped count |
| AuditRaces.UncountedDuplicate | internal/sqlstore/audit_outbox_repo.go:48-125 | a claim that stalls past its lease gives a row to two calls, uncounted |
| AuditLeases.OneHolderUntilCounted | internal/sqlstore/audit_outbox_repo.go:43-125 | while the duplicate counter is zero and no claim took a row over unseen, no obligation is in the hands of two calls |
| AuditPromptness.DuplicatesCounted | internal/sqlstore/audit_outbox_repo.go:48-100 | if claims come within a lease of their call's clock, two holders are always counted |
| AuditPromptness.PromptRunsNeverSteal | audit/dispatcher.go:93-139 | while calls also settle within their leases, there are neither duplicates nor two holders |
| AuditPromptness.ValidatedSinkNeverLosesRows | audit/service.go:80-93 | with an accepted configuration and one sink, over every run whose batches are settled when delivered, no obligation is claimed away during its delivery |
| AuditFairness.CriticalNeverStarves | audit/outbox.go:71-91 | while a row waits, no more rows are claimed before it than were ahead of it, whatever arrives, and once fewer than a batch are left the next selection takes it |
| AuditFairness.DeadLettersHadTheirAttempts | audit/dispatcher.go:146-171 | on every run a row's attempts are its claims, and a dead letter has had at least the configured number |
| AuditRetention.RetentionKeepsRecords | audit/service.go:95-117 | over any schedule of claims, if both clocks and twice the sweeps' slack fit the retention, every queued row has its record and none is older than clocks and slack |
| AuditRetention.RetentionWithoutDuplicates | audit/service.go:95-117 | on runs without duplicate deliveries that condition is all that is needed |
| AuditSchedules.AcceptedKeepsRecords | audit/service.go:95-117 | on every run in which claims start when due, an accepted configuration keeps every queued row within the checked lifetime plus the delays, and its record in place |
| AuditLateDeath.RetentionExactly | audit/service.go:95-117 | for attempts that fit the age limit, queued rows keep their records on every punctual run if and only if clocks and twice the slack fit the retention |
| AuditLateDeath.AcceptedDefaultsLoseRecords | audit/service.go:95-117 | the defaults with eight days of retention are accepted, and some punctual run loses a queued row's record |
| AuditService.Service.DispatchOnce | audit/dispatcher.go:93-139 | claims, delivers and settles one batch as a run of the machine with anything in between, keeping the counters' balance; undisturbed, it has exactly the outcome of AuditCalls.DispatchesExactly |
| AuditService.Service.HandToSinks | audit/dispatcher.go:124-136 | the sink loop succeeds if and only if every sink does, in both failure modes |
| AuditService.Service.SettleBatch | audit/dispatcher.go:146-171 | settles every row of the batch in turn |
| AuditService.Service.SettleRow | audit/dispatcher.go:147-170 | one row is deleted, dead-lettered or backed off as the step says |
| AuditService.Service.ClaimAll | internal/sqlstore/audit_outbox_repo.go:82-101 | claims each candidate in turn with its guarded update, others acting in between; the first failure ends the call |
| AuditService.FlownIsRun | audit/dispatcher.go:93-171 | whatever the others do between its statements, a call from its selection to its last settlement is a run of the machine |
| AuditService.Service.JanitorOnce | audit/dispatcher.go:203-241 | sweep, valve and all counters, statement by statement with anything in between, keeping the counters' balance |
| AuditService.Service.SweepExpired | internal/sqlstore/audit_outbox_repo.go:334-376 | counts, deletes what is expired by then, and returns the counts of before; undisturbed, removes and returns exactly the rows past their clocks |
| AuditService.Service.EvictOverCap | internal/sqlstore/audit_outbox_repo.go:393-426 | sheds dead letters, then the oldest rows, one DELETE at a time, and returns both counts also with an error; undisturbed, it cuts the queue down to exactly its cap |
| AuditService.FinishedIsRun | audit/dispatcher.go:175-241 | each of the janitor's calls, whatever happens between its statements, is a run of the machine |
| AuditService.JanitorPass | audit/dispatcher.go:203-241 | an undisturbed pass removes exactly what is past its clocks and then cuts to the cap |
| AuditService.Service.OrphanScan | internal/sqlstore/audit_outbox_repo.go:168-199 | selects and deletes orphans one by one; the count is used only when no error came with it |
| Base64.DecodeEncode | hasher/argon2id/argon2id.go:106-116 | unpadded base64 decodes to the bytes encoded |
| Base64.EncodeDecode | hasher/argon2id/argon2id.go:145-152 | strict decoding accepts one spelling of each byte string, up to line breaks |
| PasswordHashes.ParseEncode | hasher/argon2id/argon2id.go:106-176 | parsing an encoded hash returns exactly its parameters, salt and key, for every valid option set |
| PasswordHashes.EncodeInjective | hasher/argon2id/argon2id.go:106-116 | encoded hashes are equal only if everything in them is |
| PasswordHashes.ParseExactly | hasher/argon2id/argon2id.go:118-212 | a text is accepted with these parts if and only if the parameters are valid and it is the argon2id text of version 19 that spells them, with leading zeros and line breaks at most |
| HasherRegistry.NewRegistry | hasher/registry/registry.go:176-281 | construction succeeds if and only if the current hasher is usable with no negative input limit, the legacies are usable and bcrypt rows have a verifier, and builds the table that the next rows are about |
| HasherRegistry.BuiltDispatches | hasher/registry/registry.go:206-281 | a built registry sends the current hasher its own format and has verifiers for the bcrypt family and Argon2id |
| HasherRegistry.DispatchExactly | hasher/registry/registry.go:206-281 | under a current hasher that is not bcrypt, a stored bcrypt hash goes to the first legacy that writes bcrypt, the current format to the current hasher, any other to the last legacy that writes it, and Argon2id to the built-in verifier exactly when nobody writes it |
| HasherRegistry.BcryptDispatch | hasher/registry/registry.go:206-281 | a current bcrypt hasher verifies its whole family, the built-in verifier Argon2id, and nothing else has a verifier |
| HasherRegistry.BcryptRehashExactly | hasher/registry/registry.go:378-412 | under a current bcrypt hasher a stored hash is kept if and only if it is bcrypt with a readable cost equal to the current one |
| HasherRegistry.RehashExactly | hasher/registry/registry.go:378-398 | under current Argon2id a stored Argon2id hash is rewritten if and only if memory, iterations or parallelism differ |
| HasherRegistry.FreshNeverRehashed | hasher/registry/registry.go:378-398 | a freshly written hash is never rewritten |
| MailQueue.Configure | mailer/async.go:83-98 | a nil mailer and negative retries are refused, each for its reason; a size or worker count that is not positive becomes 256 or one |
| MailQueue.Async.Send | mailer/async.go:126-145 | queues, or leaves the message to its caller when stopped or full |
| MailQueue.Async.Receive | mailer/async.go:176-182 | a worker takes the oldest queued message and no other |
| MailQueue.Async.BeginStop | mailer/async.go:189-199 | the first Stop closes the channel once, later ones change nothing |
| MailQueue.Async.Deliver | mailer/async.go:150-174 | at most one attempt more than the retries, ending at the first success, on the last failure or when the context ends, which stops it with a failure before the next attempt |
| MailQueue.EveryInterleaving | mailer/async.go:126-207 | in every interleaving no channel operation panics, the queue stays within its bound, and each message sent is in exactly one place with its attempts bounded |
| MailQueue.StopReturnsDrained | mailer/async.go:189-207 | when Stop returns nil the queue is empty, the workers are gone and every queued message has ended |
| MailQueue.WorkersProgress | mailer/async.go:176-182 | every worker step leaves less to do |
| MailQueue.DrainNeverStuck | mailer/async.go:176-207 | after Stop some worker can take a step until all have left |

## Left out

- ParsePrint.CanonicalOfPrint: is about the printings described above; quoted names, function names that need quoting and empty IN lists are outside it, and the ContractLimits lemmas show why.
- ExpressionMeaning.EqualCanonicalEqualTruth: chains of IN, IS and comparisons associate to the left as the parser reads them, integer casts are not range-checked, numerals have no exponents, and lower-casing is ASCII only.
- RateLimitBounds.CapacityHolds: counters are unbounded integers.
- RateLimitRedis.RedisMatchesMemory: the hashed key names and the loss of replies other than as failures of the call are not part of it.
- AuditPromptness.ValidatedSinkNeverLosesRows: that a call settles as soon as its batch is delivered is its hypothesis; how long the settlement statements take is bounded by nothing in the code.
- AuditConservation.ObligationsConserved: one process; other instances keep their own counters. Whether a DELETE reports its row count is part of the event.
- AuditConservation.CountersAddUpExactly: says nothing the other way about runs that both hide and overcount, where the two can cancel out.
- AuditRetention.RetentionKeepsRecords: cutoffs are exact times, where the code compares text to the second.
- AuditLateDeath.RetentionExactly: is about settings whose attempts fit the age limit; the sufficient half has no such condition. A row delivered twice at once can die twice, which the runs it speaks of exclude.
- MigrationHistory.ReadCatalog: JSON decoding, SHA-256, statement splitting and the parse of a snapshot are given as their results.
- MailQueue.EveryInterleaving: the caller's own delivery may end early when its context does; how long attempts take is not modelled.
- SQL text, drivers, catalog queries and the live comparisons behind `verifyStep`: its meaning is given, as described above.
- The regular expressions of `parseDefinition`: only its CHECK bodies are modelled.
- `Inspect` and `Check` of the runner, which only read the journal.
- Acquiring the lease: one step that succeeds or fails. Context deadlines and the physical discard of a connection: a lost lease or a timeout is a failed effect.
- Address selection and normalisation, route matching and the middleware's handler: the address is a given string.
- bcrypt's own cost parsing, key derivation, signatures and randomness: functions that are given.
- The at-capacity warning, log lines and event builders, which decide nothing.
- The password-work limiter and the session, organisation and two-factor services.
