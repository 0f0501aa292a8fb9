# A verified model of the infrastructure layer

This project models the stateful and algorithmic parts of an asynchronous
application framework and proves what they are relied on for: the SQL migration
runner, the plugin manager and its static validator, provider certification and
the release gate that re-checks its reports, the distributed lock, the task
queue and rate limiter that the template engine emits, environment files and
nested configuration, signed tokens, the retrying HTTP client, and the
dependency closures of the scaffolder. `dafny verify dfyconfig.toml` checks it.

Where the program updates objects in place the model is a class with the same
fields and loops (`SqlMigrationRunner`, `PluginManager`, `Resolver`,
`DistributedLockManager`, `TaskQueue`, `RateLimiter`, `Dict`, `HttpClient`,
`Expander`); each method is proved against a specification on values, and the
theorems about whole runs are lemmas about that specification. What lies outside
is a parameter: clocks, fresh identifiers, plugin hooks, JSON and keyed hashing,
package discovery, the replies of an HTTP server, and the point at which a run
is cut off.

## How the modules fit together

| module | what it holds |
|---|---|
| `SqlSplitter`, `MigrationRunner` | reading a script into statements; loading a directory; runs that crash, repeat and overlap |
| `Graphs`, `PluginOrder`, `PluginLifecycle`, `PluginServices`, `PluginShutdown`, `PluginManagement`, `ConfigValidation` | dependency order; start-up and rollback; who owns a service; shutdown; the manager; the static validator against start-up |
| `Json`, `ProviderCertification`, `ReleaseGate`, `GateAndBuilder` | building a certification report; re-checking one; which built reports pass |
| `DistributedLock`, `TaskQueues`, `RateLimiting`, `HttpRetry` | protocols over a clock |
| `EnvFile`, `ConfigTrees`, `NestedConfig` | `.env` lines and files; nested writes and merges as values and in place |
| `Base64Url`, `AuthTokens` | token issue and verification (section 5 of RFC 4648, section 7.1 of RFC 7515, section 4.1.4 of RFC 7519) |
| `Closures` | dependencies-first expansion of provider checks; production plugins |
| `Text`, `Sequences` | strings, trimming and the order `sorted` uses; sequences without repetition |

## What the code does that one might not expect

Each of these is proved, by the lemma named with it; where the code meets an
expectation only in part, the exact condition is proved too.

- A line comment written directly after a `-` swallows that dash: in `a---b` the
  opener is the first two dashes. Replacing such a comment by its newline changes
  the statements, and it does so only there (`LineCommentIsNewline`).
- A quote is taken as escaped if the character before it is a backslash, even if that
  backslash is escaped itself: in `'\\';b` the program sees one statement and an open
  quote (`EscapedBackslashKeepsQuoteOpen`). It agrees with a reader that pairs
  backslashes if and only if that reader closes no quote directly after a backslash
  (`ReadersAgreeExactly`).
- Without a transaction factory the database is the fold of the recorded prefix if
  and only if every run so far ended between migrations (`PlainRunIsExact`). A run
  cut off inside a migration leaves its first statements applied and unrecorded,
  and the next run that gets through it executes them again (`LeftoversRunAgain`).
- With one, recorded versions stay a prefix even for runners that share no lock:
  the primary key of the migration table is enough (`RunnersSideBySide`).
- A migration added to the directory later keeps this if and only if its version sorts
  after all recorded ones (`AdditionKeepsPrefix`). One that sorts before some of them is
  no error: the next run applies it after them (`LateAdditionIsPending`).
- A health check runs after the last service validation, so one that changes the
  services it is shown can replace another plugin's service in a start-up that
  succeeds (`HealthCheckCanReplace`). Services persist and are owned if and only if
  each health check respects what it is shown (`OwnershipExactly`).
- The validator does not look at everything that start-up depends on. With a clean
  report start-up still fails, or leaves a plugin out, if a plugin that is enabled by
  default and absent from the settings rejects an empty configuration
  (`UnmentionedDefaultIsNotValidated`), if the dependencies have a cycle
  (`CycleIsNotSeen`), if a service that a plugin takes by reference, without declaring a
  dependency, is not published before its turn (`ProviderMayStartTooLate`), or if two
  active plugins publish one service (`CollisionIsNotSeen`). For plugins whose hooks
  work exactly when the services they need are there and those they publish are not,
  start-up does what the settings say if and only if there is no issue and none of these
  four holds (`AgreementExactly`). A declared dependency rules out the third in every
  order (`DeclaredNeedsAreInOrder`).
- The rate limiter discards history by the window of the current call. A later call
  with a longer window can then be let through although the full history would
  refuse it (`LongerWindowForgets`). The answers to a call are those of the full
  history, for every limit, if and only if no earlier call has discarded an accepted
  hit inside its window (`AnswersAsTheFullLog`); with a clock that does not go back
  this means that no accepted hit lies between the call's cutoff and the latest
  cutoff so far (`AnswersUpToHighest`).
- An attempt of the HTTP client whose response is received and counted, and then fails
  to close, counts as an error as well. Attempts equal responses plus errors if and only
  if there is no such attempt (`Request`).
- A `::` inside the parameters of a parametrised test hides the name of the test from
  certification (`ParametersMayHideTheName`).
- The escapes that the `.env` reader understands make every string survive on one
  line, but not in a file: a value with another line separator, such as a form
  feed, is cut in two when the file is read (`FileRoundTrip`).
- A token issued for the empty subject never authenticates (`TokenRoundTrip`).
- The expansion of provider checks does not look for cycles. It returns if and only
  if the request reaches neither a cycle nor an undefined name (`ReturnsExactly`);
  for a check that depends on itself the recursion goes on until the interpreter
  cuts it off, while other requests to the same catalog are answered
  (`SelfDependencyNeverEnds`).

## Model

| member | source | states |
|---|---|---|
| SqlSplitter.SplitSqlStatements | infra/database/migrations.py:232-277 | The index, quote and comment-flag loop computes `Split`, a reading of the script as tokens in four modes that lemmas below characterise independently of the loop. |
| SqlSplitter.EventsGlue | infra/database/migrations.py:232-277 | A script that ends outside quotes and comments can be followed by any text without changing how either part is read, unless the two meet in a comment opener. |
| SqlSplitter.EventsCut | infra/database/migrations.py:240-275 | At every index the loop reaches, reading the script is reading its two halves one after the other. |
| SqlSplitter.SplitAtSemicolon | infra/database/migrations.py:267-271 | If `a` ends in normal mode, splitting `a;b` gives the statements of `a` followed by those of `b`. |
| SqlSplitter.CleanIsOneStatement | infra/database/migrations.py:232-328 | A trimmed, non-empty text that the program reads as closing its quotes, with no comment and no bare semicolon, is one statement, itself. |
| SqlSplitter.QuotedTextIsKept | infra/database/migrations.py:260-275 | A text in single quotes, double quotes or backquotes, whose own quotes all follow a backslash, is a statement as it stands between two semicolons, whatever semicolons, comment openers and other quotes it holds. |
| SqlSplitter.OnlyQuotesQuote | infra/database/migrations.py:260-275 | Those three characters quote, and no other does. |
| SqlSplitter.SplitJoin | infra/database/migrations.py:232-328 | Any list of such statements, joined by `;` and a newline, is given back by the splitter. |
| SqlSplitter.StatementsAreTrimmed | infra/database/migrations.py:325-328 | Whatever the script, every statement is non-empty and trimmed. |
| SqlSplitter.BlockCommentIsInvisible | infra/database/migrations.py:256-259 | A closed block comment inserted anywhere the loop stands in normal mode leaves the statements as they were. |
| SqlSplitter.LineCommentIsNewline | infra/database/migrations.py:252-255 | A line comment with its newline, inserted in normal mode, acts as the newline alone if and only if the preceding character is not `-`. |
| SqlSplitter.TrailingDash | infra/database/migrations.py:252-255 | A script that ends in normal mode with a dash ends with a dash token of its own; this is what the opener of a following comment takes over. |
| SqlSplitter.DashesKept | infra/database/migrations.py:267-277 | No dash that the scanner emits is lost on the way to the statements; counting dashes is how the two scripts of `LineCommentIsNewline` are told apart. |
| SqlSplitter.ReadersAgreeExactly | infra/database/migrations.py:312-322 | At every index the program stands in and outside the same quotes as a reader that pairs backslashes if and only if that reader closes no quote directly after a backslash; and then both find the same statements. |
| SqlSplitter.StandsWhereReached | infra/database/migrations.py:240-275 | The program's side of that comparison is its scanner: it stands where the loop does, in the same mode. |
| SqlSplitter.EscapedBackslashKeepsQuoteOpen | infra/database/migrations.py:321-322 | A script with an escaped backslash before a closing quote, which the program reads as one statement with its quote open and the pairing reader as two. |
| MigrationRunner.NamedFile | infra/database/migrations.py:13 | A name is valid if and only if it is fourteen digits, an underscore, small letters, digits and underscores, and `.sql`; the digits are the version and what follows the underscore is the name. |
| MigrationRunner.NamesOrderVersions | infra/database/migrations.py:198-206 | Valid file names in name order carry versions in version order, so sorting paths sorts versions. |
| MigrationRunner.LoadSqlMigrations | infra/database/migrations.py:185-222 | A directory loads if and only if every name is valid, no two share a version and none is empty (where that is refused); the result has one migration per file, in strictly increasing version order, with the version and name read off the file name, the hash of its text and the statements of its text. Otherwise the first file that cannot be loaded after those before it decides the error. |
| MigrationRunner.SqlMigrationRunner.ApplyMigration | infra/database/migrations.py:145-166 | Statements run in order and then the record is inserted; if cut off or refused, exactly the statements got through stay and no record does. |
| MigrationRunner.SqlMigrationRunner.ApplyInTransaction | infra/database/migrations.py:140-142 | Inside a transaction a migration takes effect as a whole, with its record, or not at all. |
| MigrationRunner.SqlMigrationRunner.MigrateLocked | infra/database/migrations.py:134-143 | The loop over pending migrations computes the specified run from any database, wherever it is cut off; a changed checksum stops it before any statement. |
| MigrationRunner.SqlMigrationRunner.Migrate | infra/database/migrations.py:125-132 | With no lock, a free one or one to wait for, the run is made on the database as it then is and the lock is given back whether or not it raises; if the lock is not obtained nothing happens at all. |
| MigrationRunner.ChangedMeansError | infra/database/migrations.py:110-123 | A run raises the checksum error if and only if some recorded migration of the directory has changed. |
| MigrationRunner.RecordedText | infra/database/migrations.py:110-166 | After any runs over a loaded directory, what is recorded under the version of a file is the name read off its file name and the hash of its text. |
| MigrationRunner.ChangedTextIsRefused | infra/database/migrations.py:110-123 | After any runs over one set of files, loading another and running raises the checksum error if and only if some file recorded from the first has, under its version, a text of another hash in the second; and then the database stays as it is. |
| MigrationRunner.PendingAfterPrefix | infra/database/migrations.py:110-123 | When the first `k` migrations are recorded, exactly the rest are pending, in order. |
| MigrationRunner.AtomicRunAdvances | infra/database/migrations.py:134-143 | A transactional run cut off anywhere takes the database from the fold of one prefix to the fold of a longer or equal one. |
| MigrationRunner.RecordedPrefix | infra/database/migrations.py:110-166 | After any number of transactional runs, each cut off anywhere, recorded versions are a prefix of the directory, the database is the fold of exactly that prefix, and a further run only extends it: nothing takes effect twice or in part. |
| MigrationRunner.UninterruptedRunCompletes | infra/database/migrations.py:125-143 | After any such runs, a run succeeds if and only if it is allowed the operations of what is still pending, and if and only if it leaves the whole directory applied. |
| MigrationRunner.MigrateReturns | infra/database/migrations.py:134-143 | A `migrate` that succeeds returns exactly the migrations that had no record, in version order, and leaves every migration recorded. |
| MigrationRunner.PlainRunsAre | infra/database/migrations.py:134-166 | Without a transaction factory, after any runs cut off anywhere the recorded versions are a prefix and the data is exactly what all attempts executed, each attempt after a cut starting its migration from the first statement. |
| MigrationRunner.PlainRunIsExact | infra/database/migrations.py:134-166 | After any number of such runs the database is the fold of the recorded prefix if and only if every run ended between migrations; otherwise it holds statements beyond it. |
| MigrationRunner.LeftoversRunAgain | infra/database/migrations.py:134-166 | After a run cut off inside a migration the data ends with the beginning of it, and the next run that gets through it executes all of its statements after that: the leftover ones twice. |
| MigrationRunner.AdditionKeepsPrefix | infra/database/migrations.py:110-123 | When migrations are added to the directory, the database is still the fold of a recorded prefix if and only if every added version sorts after all the recorded ones. |
| MigrationRunner.LateAdditionIsPending | infra/database/migrations.py:110-123 | A migration added below recorded ones raises no error: it is pending, ahead of the other pending ones, and so is applied after migrations that sort after it. |
| MigrationRunner.GrowingDirectoryKeepsPrefix | infra/database/migrations.py:110-166 | Transactional runs cut off anywhere, over a directory that grows between them after what is recorded, keep the database the fold of a recorded prefix of the latest directory. |
| MigrationRunner.CommitKeepsPrefix | infra/database/migrations.py:134-166 | A commit by any of several runners at work on stale pending lists extends the recorded prefix by exactly the next migration. |
| MigrationRunner.RunnersSideBySide | infra/database/migrations.py:125-166 | Any number of transactional runners, interleaved step by step and crashing anywhere, keep the database the fold of a recorded prefix that only grows. |
| MigrationRunner.RunnerCanFinish | infra/database/migrations.py:125-166 | From any state that such an interleaving reaches, any one runner can go on alone and get the whole directory applied. |
| Graphs.OrderedMeansAcyclic | infra/plugins/manager.py:339-364 | Only an acyclic graph has a topological order. |
| PluginOrder.Resolver.Visit | infra/plugins/manager.py:344-360 | The in-place depth-first visit computes the visit on values: what it lists, and the name at which it finds a cycle. |
| PluginOrder.Resolver.ResolveOrder | infra/plugins/manager.py:339-364 | The order of the depth-first search on values: every plugin exactly once, each after its known dependencies, or the circularity error; the error if and only if the known dependencies form a cycle. |
| PluginOrder.OrderIsTopological | infra/plugins/manager.py:339-364 | For plugins registered in any order, the search on values gives a topological order, or the error if and only if there is a cycle. |
| PluginOrder.RegistrationOrderIsKept | infra/plugins/manager.py:339-364 | Plugins that are registered in a possible start order are started in just that order. |
| PluginManagement.PluginManager.StartupPlugin | infra/plugins/manager.py:199-312 | Updates the manager in place exactly as the one-plugin start on values, in each of its branches, including what it leaves behind when a hook raises. |
| PluginManagement.PluginManager.Startup | infra/plugins/manager.py:116-128 | Raising leaves services, contexts, started list, active set and flag as before, whichever plugin failed and whichever rollback hooks raise; which error is raised is settled exactly, and otherwise all active plugins have been started in the order of the depth-first search. The shutdown hooks that a failing start-up calls are those `RollbackStops` describes, and a start-up that succeeds calls none. |
| PluginManagement.PluginManager.RollbackStartup | infra/plugins/manager.py:187-197 | The snapshot is back in place, and the hooks called on the way are those of a shutdown. |
| PluginShutdown.RollbackStops | infra/plugins/manager.py:126-128 | When a start-up fails at a plugin, the rollback calls the shutdown hooks of exactly the plugins that were active before it, and of the failing one if its registration was accepted, each once, last started first and each dependent before its dependencies. |
| PluginManagement.PluginManager.Shutdown | infra/plugins/manager.py:314-337 | The in-place loop over the reversed start order computes the shutdown on values and keeps the tracking state consistent. |
| PluginLifecycle.StartupKeepsConsistent | infra/plugins/manager.py:116-128 | Between calls each started plugin is active and has a context, none is started before what it depends on, and while the flag is false nothing is tracked. |
| PluginLifecycle.RunningAfter | infra/plugins/manager.py:199-241 | Part way through start-up the started plugins are the active ones, in the order they were taken. |
| PluginLifecycle.BeforeHooks | infra/plugins/manager.py:199-312 | A plugin that is switched off is passed over; missing dependencies, and then a rejected configuration, are raised for a plugin that is switched on and pass over one that is merely on by default. |
| PluginLifecycle.HookErrors | infra/plugins/manager.py:199-241 | Past that, the registration, the services it leaves, the start-up hook, the services that leaves and the health check decide in this order which error is raised, if any. |
| PluginServices.ServicesPersist | infra/plugins/manager.py:386-419 | If health checks respect the services they are in fact shown, a published service is never removed or replaced by a later plugin. |
| PluginServices.ServicesAreOwned | infra/plugins/manager.py:199-241 | Then, after a start-up without an error, every service was added by exactly one plugin, which is active, offers it or is configured to publish it, and is still the object that plugin published. |
| PluginServices.OwnershipExactly | infra/plugins/manager.py:199-241 | Over any start-up without an error, services persist between all steps and each has its one owner if and only if the health check of each started plugin leaves earlier services alone and adds only declared ones, on the services it was shown. |
| PluginServices.HealthCheckCanReplace | infra/plugins/manager.py:231-241 | Two plugins, started from scratch without an error, of which the second replaces the service of the first in its health check. |
| PluginLifecycle.EarlierStepsSucceed | infra/plugins/manager.py:116-128 | A start-up that succeeds has succeeded at every plugin; the first error is final. |
| PluginShutdown.StopFront | infra/plugins/manager.py:314-337 | Stopping any front of the started list, last first, after the rest has been dealt with, calls every hook of it once in reverse and keeps exactly those that raised, in their old order. |
| PluginShutdown.ShutdownIs | infra/plugins/manager.py:314-337 | Every started plugin is asked in reverse start order; those that raised are what remains; if none raised the manager is as before start-up, and it raises if and only if one did. |
| PluginShutdown.DependentsStopFirst | infra/plugins/manager.py:314-337 | Each plugin is asked to stop before anything it depends on. |
| PluginShutdown.ShutdownsShrink | infra/plugins/manager.py:314-337 | Over repeated calls the state stays consistent and no plugin comes back. |
| PluginShutdown.StoppedOnce | infra/plugins/manager.py:314-337 | Over repeated calls each plugin's shutdown succeeds at most once. |
| ConfigValidation.UnknownPluginIssues | infra/config/validation.py:65-72 | Exactly the plugins that are configured but not installed are reported, each once. |
| ConfigValidation.DependencyProblems | infra/config/validation.py:79-82 | Exactly the unknown, inactive and missing optional dependencies of active plugins are reported, once per plugin and code. |
| ConfigValidation.ConfigProblems | infra/config/validation.py:84-108 | Exactly the mentioned active plugins that reject the configuration given for them are reported, each once. |
| ConfigValidation.ValidateInfraSettings | infra/config/validation.py:56-112 | The report holds each issue there is, once, and nothing else. |
| ConfigValidation.AllComeUp | infra/config/validation.py:275-344 | With no issue, defaults that accept an empty configuration and hooks that work on what they are shown, start-up gets through every prefix of the order with exactly its active plugins up. |
| ConfigValidation.EarnedAlways | infra/plugins/manager.py:199-312 | Whatever the hooks do, a plugin that start-up made active is statically active, its configuration was accepted and its dependencies are active. |
| ConfigValidation.PredictedExactly | infra/config/validation.py:56-112 | For acyclic dependencies and any hooks whatever: start-up succeeds with exactly the statically active plugins if and only if there is no issue, the unmentioned defaults accept an empty configuration and the hooks of each active plugin work on the services it is shown. |
| ConfigValidation.WellBehavedHooksWork | infra/plugins/manager.py:199-241 | Plugins that work, and publish what they give, wherever what they need is there and what they give is not, are shown services on which they work, if the order puts a giver of each need first and no service is given twice. |
| ConfigValidation.StaticMatchesRuntime | infra/config/validation.py:56-112 | For such plugins and such an order, with acyclic dependencies, start-up succeeds with exactly the statically active plugins if and only if there is no issue and the unmentioned defaults accept an empty configuration. |
| ConfigValidation.AgreementInOrder | infra/config/validation.py:56-112 | For plugins whose hooks work exactly where they fit, start-up in a given topological order succeeds with exactly the statically active plugins if and only if there is no issue, the unmentioned defaults accept an empty configuration, the order puts a giver of each need first, and no two active plugins give one service. |
| ConfigValidation.AgreementExactly | infra/config/validation.py:56-112 | Static and runtime agree exactly: for such plugins, registered in any order, `startup` succeeds with exactly the statically active plugins if and only if there is no issue, the unmentioned defaults accept an empty configuration, the dependencies have no cycle, the depth-first order puts a giver of each need first, and no two active plugins give one service. |
| ConfigValidation.DeclaredNeedsAreInOrder | infra/plugins/manager.py:339-364 | Needs that active declared dependencies give are met in every topological order. |
| ConfigValidation.UsingADependencyIsWellBehaved | infra/plugins/ratelimit/memory.py:319-327 | A plugin whose start-up raises without the service of another plugin, whether it declares that plugin as a dependency or not, is among the plugins these theorems cover. |
| ConfigValidation.ProviderMayStartTooLate | infra/plugins/ratelimit/memory.py:319-327 | A limiter that takes the database service by reference: with a clean report, `startup` succeeds if and only if the database is registered first. |
| ConfigValidation.DeclaredProviderIsInTime | docs/plugins.md:306-315 | With the dependency declared, the same two plugins start as configured in whatever order they are registered. |
| ConfigValidation.CollisionIsNotSeen | infra/plugins/manager.py:386-406 | A cache and a limiter that is configured to publish its service under the same name: with a clean report, `startup` fails in whatever order they are registered. |
| ConfigValidation.CycleIsNotSeen | infra/plugins/manager.py:344-349 | Two plugins that depend on each other: a clean report, and `startup` raises the circularity error. |
| ConfigValidation.UnmentionedDefaultIsNotValidated | infra/config/validation.py:84-108 | A plugin enabled by default, left out of the settings and rejecting an empty configuration: no issue, and start-up does not activate it. |
| ConfigValidation.PredictedMeansNoIssue | infra/plugins/manager.py:243-312 | One half of that needs no assumption on hooks: a start-up that ends as the settings say had a clean report. |
| ConfigValidation.ReportedMeansRaised | infra/plugins/manager.py:171-312 | An unknown plugin, or a dependency or configuration issue on a plugin switched on explicitly, makes start-up raise, whatever the hooks do. |
| ProviderCertification.MatchedAre | infra/provider_certification.py:326-335 | The matched outcomes are exactly the pairs of a required test and a collected item of that base name. |
| ProviderCertification.BaseNameIs | infra/provider_certification.py:381-384 | The test a node id names is what follows the last `::`, without parameters: `path::name` and `path::name[parameters]` name `name`. |
| ProviderCertification.ParametersMayHideTheName | infra/provider_certification.py:381-384 | A `::` inside the parameters is taken for the separator: such an item is matched by what follows it and not by its test. |
| ProviderCertification.PassedOutcome | infra/provider_certification.py:290-323 | A check passes if and only if no collected test of its names failed or was skipped and each of its tests passed somewhere. |
| ProviderCertification.WorstOutcome | infra/provider_certification.py:290-323 | A check is failed if and only if some item of its names failed, skipped if and only if none failed and some was skipped, and its details then tell of exactly those items, with their reasons. |
| ProviderCertification.PassedDetails | infra/provider_certification.py:338-348 | The details of a passing check are exactly the node ids of its passing tests. |
| ProviderCertification.MissingDetails | infra/provider_certification.py:290-323 | A check that no collected item concerns is missing and says so; one that is missing otherwise says that not every required test produced a result. |
| ProviderCertification.UnsetHolds | infra/provider_certification.py:474-478 | A variable is listed as missing if and only if it is required and absent or empty in the environment. |
| ProviderCertification.UnavailableHolds | infra/provider_certification.py:481-485 | A package is listed as missing if and only if it is required and not available. |
| ProviderCertification.UniqueHolds | infra/provider_certification.py:387-430 | Deduplicating keeps every path, each once. |
| ProviderCertification.UniqueInOrder | infra/provider_certification.py:415 | They come in the order in which they first occur. |
| ProviderCertification.AllPassedCounts | infra/provider_certification.py:387-430 | The four summary counts add up to the total, and `passed` equals it if and only if every result passed. |
| ReleaseGate.ProviderResultCounts | infra/release_check.py:466-475 | The counting loop accepts a list if and only if every entry is well formed, counts each outcome, and can raise only on an unhashable outcome. |
| ReleaseGate.DuplicateStrings | infra/release_check.py:493-500 | Exactly the values that occur more than once. |
| ReleaseGate.CheckSelectedProviderEntries | infra/release_check.py:378-410 | No issue if and only if the selection is a list of distinct names from the catalog. |
| ReleaseGate.CheckCertificationFreshness | infra/release_check.py:577-617 | No issue if and only if the timestamp parses, is at most a day old and at most five minutes ahead; the stale code if and only if it is older. |
| ReleaseGate.FreshLimits | infra/release_check.py:30-31 | Fresh means a timestamp that parses to at most 86400 seconds before the clock and at most 300 after it. |
| ReleaseGate.AsManyTextsAsEntries | infra/release_check.py:661-671 | A list has as many different non-empty strings as entries if and only if its entries are distinct non-empty strings. |
| ReleaseGate.ReportedCertificationTestPaths | infra/release_check.py:661-671 | Comparing the size of a set with that of a list accepts exactly the lists of distinct non-empty strings. |
| ReleaseGate.CheckCertificationTestPaths | infra/release_check.py:628-671 | No issue if and only if the reported paths are usable and cover the declared path of each selected check. |
| ReleaseGate.PathsMean | infra/release_check.py:628-671 | The paths count as covered if and only if the list of them, where there is one, holds different non-empty strings and every declared path of the selection, or else the single path given is the declared path of each. |
| ReleaseGate.CheckProviderResultSummary | infra/release_check.py:438-463 | No issue if and only if the results are well formed and the summary holds their counts. |
| ReleaseGate.CheckExpectedProviderResults | infra/release_check.py:294-375 | No issue if and only if there is one result per selected provider and each relevant one is vouched for; of the three evidence codes, missing tests, incomplete requirements and missing requirements, each is reported for its cause unless an earlier one applies. |
| ReleaseGate.CheckProviderCertification | infra/release_check.py:208-291 | The fifteen branches report nothing on a supplied report if and only if it is acceptable in the declarative sense of `Accepts`; not-certified, uncovered, stale and the three evidence codes each occur exactly for their cause. |
| ReleaseGate.SummaryMeansPassed | infra/release_check.py:249-271 | The early look at the summary and the later count together say that there are results and all of them passed. |
| ReleaseGate.LooksPassedMeans | infra/release_check.py:249-271 | The early look at the summary asks for a total that is not empty, as many passed, and nothing but zeros for failed, skipped and missing. |
| ReleaseGate.AcceptedResults | infra/release_check.py:249-375 | The branches on summary and results amount to: one passed, vouched-for result per provider. |
| ReleaseGate.AcceptedProviderPassed | infra/release_check.py:208-570 | Soundness: behind an accepted report there is, for each expected provider (or each selected one if none is expected), an entry of its name with outcome `passed` that lists every required test, gives evidence for each at its declared path, lists every required variable and package, and lists none of them as missing. |
| GateAndBuilder.MissingIsListed | infra/provider_certification.py:454-485 | Entry by entry, a built report lists as missing exactly the required variables that are absent or empty and the required packages that are not available. |
| GateAndBuilder.ReportTells | infra/provider_certification.py:387-430 | It gives the one path that was set or that there is, and the exit code and success of the test run if they are known. |
| GateAndBuilder.ItemTells | infra/provider_certification.py:433-451 | Each entry gives the outcome of its check by its name, the declared path and the optional variables. |
| GateAndBuilder.VouchedMeans | infra/release_check.py:503-570 | A result the builder wrote is vouched for if and only if its details locate every test and nothing it requires is missing. |
| GateAndBuilder.PathsMatch | infra/provider_certification.py:387-430 | The paths the builder reports cover the catalog's if and only if there is no override or it lists every declared path. |
| GateAndBuilder.SelectionMatch | infra/provider_certification.py:387-430 | The selection the builder reports is accepted and is that of the run if and only if there is no override or it names exactly the checks that ran. |
| GateAndBuilder.ResultsMatch | infra/provider_certification.py:387-451 | The built results count as all passed if and only if there is a check and every one passed. |
| GateAndBuilder.GateAcceptsBuilt | infra/release_check.py:208-570 | The gate is sound and complete for the builder: a built report is accepted if and only if there is a check, no item named like a test of any check failed or was skipped and each test passed, every required variable is set and not empty and every required package available, the test run succeeded, the report is fresh and covers what is expected, overrides fit, and each relevant test passed at its declared path. |
| GateAndBuilder.AcceptedBuiltIsMet | infra/release_check.py:208-570 | Behind a built report that is accepted, every check had its variables set and its packages available, and nothing named like one of its tests failed or was skipped. |
| GateAndBuilder.DetailMatchesExactly | infra/release_check.py:528-535 | A detail is evidence for a test if and only if it is the node id of that test in the file at the declared path, with parameters or without, and with a reason or without. |
| GateAndBuilder.WellPlacedMeansLocated | infra/release_check.py:528-535 | If node ids start with the declared path and contain no `: `, the path test never rejects a passing check, parametrised tests included. |
| GateAndBuilder.IntendedRunIsAccepted | infra/release_check.py:208-570 | A run without overrides in which everything passed, with all variables set and packages available, fresh and covering what is expected, with node ids as pytest writes them, is accepted. |
| DistributedLock.NamesDiffer | infra/plugins/lock/manager.py:45-54 | Different lock keys of one prefix have different server keys. |
| DistributedLock.OthersDoNotBlock | infra/plugins/lock/manager.py:45-54 | A lock key is free if and only if whatever is live under the prefix belongs to other lock keys. |
| DistributedLock.DistributedLockManager.Acquire | infra/plugins/lock/manager.py:68-122 | Sets `prefix:key`, and no other entry, to the token for the timeout at the first attempt that finds it free, which is the first of all if only other lock keys are held; times out only after the blocking time, and makes at most ten attempts per second of it plus one; after any legal run of all clients a success is one more legal step, with which its token holds the key for the timeout and all other acquires are refused. |
| DistributedLock.DistributedLockManager.Release | infra/plugins/lock/manager.py:124-158 | Deletes the entry `prefix:key` if and only if it is live and carries the token, and leaves the entries of all other lock keys as they are. |
| DistributedLock.DistributedLockManager.Extend | infra/plugins/lock/manager.py:160-191 | Moves the expiry of the entry `prefix:key` if and only if it is live and carries the token, and leaves the entries of all other lock keys as they are. |
| DistributedLock.AgreementKept | infra/plugins/lock/manager.py:99-191 | Every step of any client, or of the clock, keeps the server's live entries equal to the unexpired leases. |
| DistributedLock.MutualExclusion | infra/plugins/lock/manager.py:99-122 | In every interleaving with fresh tokens, no two tokens hold one key at the same time. |
| DistributedLock.AnswersFollowLeases | infra/plugins/lock/manager.py:99-191 | An acquire is granted exactly while nobody holds the key; release and extend succeed exactly for the holder. |
| DistributedLock.OtherTokensChangeNothing | infra/plugins/lock/manager.py:99-191 | In every run, no step but the holder's own release or extension touches the entry of a key that is held: neither attempts under other tokens, nor acquires, nor time. |
| DistributedLock.HeldUntilDeadline | infra/plugins/lock/manager.py:99-191 | Until the deadline it was last given, and unless it releases or extends, a holder keeps the key and every acquire by anyone is refused. |
| DistributedLock.GrantedUntilDeadline | infra/plugins/lock/manager.py:99-191 | The same from the step that granted it: for the time an acquire or extension was granted, its client holds the key and all acquires of it are refused. |
| TaskQueues.TaskQueue.EnqueueTask | infra/plugins/template.py:1803-1831 | Refuses a blank key, returns the task of a known one unchanged, refuses fewer than one attempt, and otherwise adds to the deque, the tasks and the keys exactly one new task, due after its delay; this is the enqueue step on values. |
| TaskQueues.TaskQueue.DequeueTask | infra/plugins/template.py:1833-1845 | Delivers the task of the first entry that is queued and due, now running and with one attempt more, and nothing if there is none; stale entries are dropped and delayed ones put behind the rest in order, which is the dequeue step on values. |
| TaskQueues.TaskQueue.RetryTask | infra/plugins/template.py:1857-1869 | Puts a known task in line again, due after the delay, with the reason as its error and everything else as it was. |
| TaskQueues.FirstAvailableIsFirst | infra/plugins/template.py:1833-1845 | What `dequeue` delivers is available, and no entry before it is. |
| TaskQueues.InvKept | infra/plugins/template.py:1803-1875 | Under every operation each queued task keeps an entry in the deque, and idempotency keys and keyed tasks stay in one-to-one correspondence. |
| TaskQueues.NothingMeansNoneAvailable | infra/plugins/template.py:1833-1845 | `dequeue` returns nothing if and only if no queued task is available. |
| TaskQueues.AttemptsAreDeliveries | infra/plugins/template.py:1843-1844 | Over any history a task's attempt counter is the number of times it was delivered. |
| TaskQueues.NoDoubleDelivery | infra/plugins/template.py:1833-1869 | A task is never delivered twice without a retry of it in between. |
| TaskQueues.NotBeforeItsTime | infra/plugins/template.py:1803-1869 | A task is never delivered before the delay has passed with which it was enqueued or last retried. |
| TaskQueues.OneTaskPerKey | infra/plugins/template.py:1812-1816 | Once an idempotency key that is not blank is accepted, every later enqueue under it, with or without blanks around it, returns the same task. |
| TaskQueues.SameTaskSameKey | infra/plugins/template.py:1812-1816 | And two accepted enqueues return the same task only if both pass such a key and it is the same one. |
| TaskQueues.FirstInFirstOut | infra/plugins/template.py:1833-1845 | At a given time repeated dequeues deliver the available tasks in the order of their first entries, each once, however delayed, stale and duplicate entries are mixed in; then nothing. |
| TaskQueues.EveryAvailableTaskIsDelivered | infra/plugins/template.py:1833-1845 | Enough dequeues in a row deliver exactly the available tasks; none is left waiting behind rotated entries. |
| TaskQueues.BoundedOvertaking | infra/plugins/template.py:1803-1875 | A task whose first entry is at position `p` is delivered within `p + 1` dequeues, at whatever times they come and whatever other operations are interleaved, as long as it stays available. |
| RateLimiting.RateLimiter.Allow | infra/plugins/template.py:2059-2071 | Prunes, decides and stores as the step on values: a limit of none refuses before the key is looked at, a blank key raises, and no other key is touched. |
| RateLimiting.StoredApart | infra/plugins/template.py:2076-2080 | Two calls share their hits if and only if their keys are the same but for blanks around them. |
| RateLimiting.KeysAreIndependent | infra/plugins/template.py:2059-2080 | What the object stores under a key, and which calls under it it lets through, depend on that key's own calls alone, however calls are interleaved. |
| RateLimiting.PrunedAgrees | infra/plugins/template.py:2062-2070 | For any clock and windows: after a given time the pruned list and the full log of accepted calls are the same if and only if no call has discarded a later hit; otherwise the pruned list is shorter. |
| RateLimiting.AnswersAsTheFullLog | infra/plugins/template.py:2059-2071 | For every limit the answer to a call is that of the full log, letting it through exactly when fewer accepted calls than the limit are later than its time less its window, if and only if no accepted call inside the window has been discarded before. |
| RateLimiting.ObjectAnswersAsTheFullLog | infra/plugins/template.py:2059-2080 | The same for the answers of the object, whose calls under different keys are interleaved. |
| RateLimiting.StoredIsRecentLog | infra/plugins/template.py:2062-2070 | With a clock that does not go back and windows of positive length, what is stored is the full log from the latest cutoff so far on. |
| RateLimiting.AnswersUpToHighest | infra/plugins/template.py:2059-2071 | Then the answers to a call are those of the full log, for every limit, if and only if no accepted call lies between its own cutoff and the latest one so far. |
| RateLimiting.LongerWindowForgets | infra/plugins/template.py:2062-2064 | An instance: a call with a longer window is let through that the full log would refuse, an earlier call having discarded a hit inside the window. |
| RateLimiting.WindowBound | infra/plugins/template.py:2059-2080 | With one limit and window under a key and a clock that does not go back, the window ending at any time holds at most `limit` calls that the object has let through under it, whatever happens under other keys. |
| EnvFile.EscapedByBackslash | infra/config/loader.py:201-207 | The backward loop finds the parity of the run of backslashes before the index. |
| EnvFile.ClosingQuoteIndex | infra/config/loader.py:192-198 | The first quote that is not escaped, or none. |
| EnvFile.DecodeDoubleQuotedEnvValue | infra/config/loader.py:210-233 | The index loop computes the recursive decoder that the encoder below inverts. |
| EnvFile.BackwardIsForward | infra/config/loader.py:192-233 | Counting backslashes backwards picks exactly the first quote that the forward decoder would not consume as an escape. |
| EnvFile.InnerTextIsPaired | infra/config/loader.py:174-189 | The inner text of a double-quoted value never ends in an unpaired backslash. |
| EnvFile.LineRoundTrip | infra/config/loader.py:148-233 | For every valid key and every string, writing `KEY="..."` with the five escapes and parsing the line gives the key and the string back. |
| EnvFile.EscapedCharacter | infra/config/loader.py:210-233 | In double quotes a backslash turns `n`, `r` and `t` into line feed, carriage return and tab, gives a quote, a backslash or a dollar sign themselves, and stays with any other character. |
| EnvFile.PlainRoundTrip | infra/config/loader.py:174-242 | A trimmed value may be written without quotes if and only if it does not start with a quote and no `#` opens a comment in it. |
| EnvFile.SingleQuotedRoundTrip | infra/config/loader.py:174-198 | A value in single quotes is read back as it stands if and only if it holds no single quote, whatever backslashes it holds. |
| EnvFile.AfterTheValue | infra/config/loader.py:174-189 | After a quoted value only blanks and a comment may follow; anything else is an error. |
| EnvFile.CommentIsCutOff | infra/config/loader.py:236-242 | A comment after an unquoted value, and the blanks before it, are cut off. |
| EnvFile.LineErrors | infra/config/loader.py:148-171 | A line without `=` and one whose key is not a word are refused, each with its error; otherwise what the value yields decides. |
| EnvFile.ExportIsOptional | infra/config/loader.py:148-162 | `export` before any line, padded or with an empty value, changes nothing if and only if the line is neither blank nor a comment (a line that itself starts with `export` apart). |
| EnvFile.LoadEnvFile | infra/config/loader.py:30-51 | Lines are applied in order up to the first that fails, which is reported with its number. |
| EnvFile.LinesAre | infra/config/loader.py:38 | Lines are what stands between the ten line separators, a carriage return with a line feed being one. |
| EnvFile.LoadedIs | infra/config/loader.py:30-51 | The first line that cannot be read raises, with its number; otherwise the last assignment of each key wins over earlier ones and over what was there. |
| EnvFile.FileRoundTrip | infra/config/loader.py:30-51 | A written file loads to exactly its assignments if and only if no value holds a line separator that the escapes leave alone; otherwise loading raises. |
| EnvFile.CutLineFails | infra/config/loader.py:174-189 | A double-quoted value that is cut off anywhere before its closing quote is an error, never a shorter value. |
| ConfigTrees.SetAtCommutes | infra/config/loader.py:84-92 | Two writes at paths neither of which begins the other commute. |
| ConfigTrees.OrderIsIrrelevant | infra/config/loader.py:70-92 | When no path is equal to or a beginning of another, every order of the same variables builds the same tree. |
| ConfigTrees.EachValueFound | infra/config/loader.py:70-92 | In that tree each variable's value stands at its path. |
| ConfigTrees.SourceLeavesKept | infra/config/loader.py:245-251 | Every leaf of the second tree is in the merge, at its path. |
| ConfigTrees.TargetLeavesKept | infra/config/loader.py:245-251 | Leaves of the first tree that the second does not reach are kept. |
| ConfigTrees.LeavesComeFrom | infra/config/loader.py:245-251 | The merge invents nothing: each of its leaves is one of the two trees' leaves at the same path. |
| ConfigTrees.DeepMergeMapping | infra/scaffold.py:2369-2380 | Building the merge afresh, key by key in any order, gives that merge. |
| NestedConfig.SetNested | infra/config/loader.py:84-92 | The loop that walks down dictionaries in place, creating or replacing what is in the way, changes the tree by exactly the write at that path, also for a value that is itself a dictionary. |
| NestedConfig.DeepMerge | infra/config/loader.py:245-251 | On trees that share nothing, merging in place ends with exactly the tree that the separate merge on values computes. |
| Base64Url.DecodeEncode | infra/plugins/auth/service.py:293-299 | Unpadded encoding and decoding are inverse on every byte string, and encoded text holds no dot, padding or non-ASCII character. |
| Base64Url.KnownTexts | infra/plugins/auth/service.py:293-294 | The test vectors of section 10 of RFC 4648, without padding, and a text with the two characters of the URL-safe alphabet. |
| Base64Url.ValuesAreStandard | infra/plugins/auth/service.py:256-264 | The digits that the decoder reads are those of the URL-safe alphabet and `+` and `/`, with their values; no other character is one. |
| AuthTokens.BuildJwtKeyring | infra/plugins/auth/service.py:211-225 | A keyring is built if and only if every record has a secret and no two keys share an id; the single secret comes first, under `default`, and the records follow in order under their ids, or `default` if they have none. Otherwise the first record at fault decides the error. |
| AuthTokens.NewService | infra/plugins/auth/service.py:60-76 | A service is set up if and only if its keyring is valid and holds the key id it is given, if any; its active key is that one, or else the first, and it keeps issuer, audience and lifetime. |
| AuthTokens.IssuesExactly | infra/plugins/auth/service.py:98-134 | It issues a token if and only if it has keys and holds the key id asked for, if any. |
| AuthTokens.PayloadFields | infra/plugins/auth/service.py:108-124 | The payload says who, with which scopes and roles, from when, until when, for whom and by whom; custom claims are kept under every other name. |
| AuthTokens.IssuedText | infra/plugins/auth/service.py:126-134 | An issued token is the encoded header and payload, and the base64url text of their keyed hash under the secret of the key it names. |
| AuthTokens.TokenRoundTrip | infra/plugins/auth/service.py:98-186 | A token that a service issues authenticates to the same subject, scopes and roles if and only if the subject is not empty, the clock is below its expiry, the issuer and audience are trusted, and the verifying service has a key of that id under which the token has the same keyed hash, whichever key is active there and whatever other keys have come or gone; otherwise it is refused. |
| AuthTokens.OnlySecretHoldersAccept | infra/plugins/auth/service.py:98-206 | Where the keyed hash of the signed part tells the secrets apart that the two services have under the key id, a token is accepted, its claims being in order, if and only if they have the very same one. |
| AuthTokens.ChangedTextIsRefused | infra/plugins/auth/service.py:149-206 | A changed header or payload under an old signature is refused by every service none of whose keys gives it the same keyed hash. |
| AuthTokens.AcceptedIsSigned | infra/plugins/auth/service.py:149-186 | A text is accepted for a principal if and only if it is a header with the one algorithm, a payload whose claims hold, and the base64url text of the keyed hash of both under the secret of the key that the header names, or of the only one if it names none; and the principal is who the payload speaks of. |
| AuthTokens.NonAsciiRaises | infra/plugins/auth/service.py:155-206 | What gets out besides a refusal: an encoding error exactly for a payload part, and a comparison error exactly for a signature, that is not ASCII. |
| HttpRetry.HttpClient.Request | infra/http/client.py:378-494 | Attempts are exactly those up to the first that is not retried, and never more than configured: a retry needs an attempt left, a method of the policy in whatever case, and a time-out, a client error or a listed status. The last attempt decides the result. Attempts are one plus retries, and equal responses plus errors if and only if no attempt was counted as both; each sleep is twice the one before, the first being the base delay. |
| HttpRetry.BackoffSum | infra/http/client.py:373-376 | Each delay takes the sum of delays to the next value of the closed form, also where a zero delay is not slept. |
| Closures.Expander.AddProvider | infra/provider_certification.py:633-639 | Wherever the recursion ends, it adds only checks reached from the name, dependencies first, and computes the bounded walk on values. |
| Closures.ReturnsExactly | infra/provider_certification.py:633-643 | The expansion returns if and only if the request reaches neither a cycle nor an undefined name. |
| Closures.EndsExactly | infra/provider_certification.py:633-643 | Where all that is reached is defined, the recursion ends if and only if no cycle is reached. |
| Closures.SelfDependencyNeverEnds | infra/provider_certification.py:633-639 | A catalog with a check that depends on itself answers one request and recurses without end on another. |
| Closures.ExpandProviderCheckNames | infra/provider_certification.py:619-643 | Wherever the recursion ends, each check the request reaches is listed once, after its dependencies; an unknown request is refused first, and the lookup error occurs if and only if an undefined name is reached. |
| Closures.Sweep | infra/scaffold.py:2329-2338 | A sweep in any order only adds what is reached, and reports a change if and only if there was one; without one the set is closed. |
| Closures.DependenciesAre | infra/scaffold.py:2329-2335 | A plugin depends on the strings of its manifest entry if that is a list, and else on nothing. |
| Closures.ProductionPluginsFor | infra/scaffold.py:2316-2339 | A request with names outside the catalog, or else with malformed names, is refused for just these; otherwise the fixpoint loop ends on every manifest, cyclic or not, and returns exactly the entries of the catalog that are reached from the request, in catalog order, whatever order the sweeps took. |

## Left out

- ConfigValidation.ValidateInfraSettings: the service-reference codes (`missing_service_reference`, `invalid_manifest`) are not modelled; they depend on which plugins are active and not on the order, and start-up does not look at them, so the agreement theorems are about the other codes. Messages, details and the order of issues are not modelled either.
- Closures.Expander.AddProvider: the fixed extra dependencies of some checks and those a check declares are one list per name; the interpreter's recursion limit is not modelled. On a catalog with an undefined name in reach, whether the walk meets it before a cycle is left to the order of the lists.
- DistributedLock.DistributedLockManager.Acquire: the other clients and the clock enter as functions giving the server and the time before each attempt; the requirement that each sleep lasts a tenth of a second is what the program's sleep promises. The token map and the `lock()` context manager, which decide nothing, are left out.
- MigrationRunner.SqlMigrationRunner.Migrate: while it waits for the lock the other runners enter as the database they leave; `RunnersSideBySide` covers overlapping runners. A release that itself raises is not modelled.
- MigrationRunner.LoadSqlMigrations: the directory is a map from the names that end in `.sql` to their texts; a missing directory (no migrations) and a path that is not a directory (an error) are not modelled, nor are the name normaliser and the file creator.
- PluginManagement.PluginManager.Startup: health registry entries, which a rollback does not take back, manifests, logging, cancellation and health timeouts (an unhealthy result here) are not modelled; neither is what a hook does to the context object of a plugin that then fails.
- PluginManagement.PluginManager.Shutdown: changes that a shutdown hook makes to services or to its own context are not modelled.
- HttpRetry.HttpClient.Request: metrics by status and method, sessions, tracing headers and a sleep that itself raises are not modelled.
- TaskQueues.TaskQueue.EnqueueTask: the payload is not modelled; returned tasks are values, as the deep copies are.
- AuthTokens.TokenRoundTrip: JSON with UTF-8 and HMAC are functions of a parameter, assumed to restore the header and payload at hand; a signature is a value of that function. `OnlySecretHoldersAccept` and `ChangedTextIsRefused` state what follows where it tells the secrets and texts at hand apart; that HMAC does so is not claimed. API-key hashing and bearer-header parsing are left out.
- NestedConfig.DeepMerge: source and target share no dictionary, as they do where the loader calls it; the order of keys inside a mapping is not modelled.
- GateAndBuilder.GateAcceptsBuilt: assumes what the catalog validator guarantees of the checks: distinct names, at least one test each and a non-empty test path.
- Parsing timestamps, formatting reports and messages, and floating-point rounding in clocks and delays (reals are used), NaN included.
- Turning environment-variable names into paths, coercing their values and resolving `env` references in configuration.
- Redis, MySQL, HTTP, filesystem and archive access beyond the state changes relied on.
- The streams manager, release policies, conformance checks, registries, caches, middleware, payment and AI provider wrappers, command-line tools and scaffold text: independent checks and string plumbing.
