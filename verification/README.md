# A verified model of the r64 pull engine

This project models, in Dafny 4.11, the parts of the r64 database engine whose
promises range over unbounded runs or unbounded data, and proves those
promises. `dafny verify dfyconfig.toml` checks all of it.

What is modelled, module by module:

- `Cursor`, `Incremental`, `Lanes`: the incremental pull of one table. The
  stored watermark text and its two encodings, the query it asks for (keyset
  comparison, ORDER BY, LIMIT over a table in no particular order), the next
  watermark, and a *lane*: source rows, published output, stored cursor, and a
  history variable for rows published without a cursor commit.
- `Schedule`, `Promises`: many targets over one semaphore, interleaved at their
  await points, with driver errors, read-backs that fail, refused writes and
  commits, crashes, and rows arriving at any moment. `Schedule` has what orderly
  runs keep; `Promises` assumes nothing of a run and says exactly what it costs.
- `Daemon`, `Service`, `Refinement`: the daemon object itself, method by method
  (connecting, retries, the success and failure paths, the in-flight flag, the
  per-table runtime state), what any sequence of calls on it comes to, and each
  call as a run of `Schedule`'s event loop.
- `PullLog`: the state database: watermarks, schema baselines and the pruned
  pull history.
- `Outage`: a power loss over a lane whose cursor is committed and whose output
  is a file.
- `Disk`, `Evidence`, `Publish`: a file system whose files know whether their
  bytes and their directory entries have been fsynced, with a journal of every
  state a crash could find; over it, the content-addressed evidence store and
  the two sinks.
- `Codec`: null fill and the int32 guard of the ramdb format.
- `Json`, `Recipes`, `Documents`, `Engine`: dotted-path lookup, the recipe-book
  loader, what a book's document says, and the engine that pages through an
  arbitrary provider and threads one recipe's response into the next one's
  inputs.
- `Scrub`: literal replacement of secrets in three forms and redaction of
  query parameters by name, in any order the two sets are walked.
- `Judges`, `Oracle`: the ten judges of the oracle battery, what aggregates can
  see, and the Arrow sink's batch loop.
- `TypeNames`: type-name normalisation and the ClickHouse unwrapping loop.
- `Generator`: the scaffold generator as a small compiler: the literals it emits,
  a reader for them, and the emitted dispatch beside the hand-built one.
- `Util`, `Text`, `Ordering`: result types, substrings and whitespace, and
  sorting and filtering by a lexicographic rank.

## What the proofs found

Where the code and its documentation part ways the model follows the code. Most
of these are stated as an exact condition, several with a concrete input beside
it; the table below names the members.

- A repair of the evidence store reuses a preserved copy of corrupt bytes when
  it hashes right, without fsyncing it (`factory/evidence.py:495-502`). A kill
  between that copy's rename and its directory fsync, a second repair, and a
  power loss can together destroy the corrupt bytes. One repair is safe at
  every instant exactly when the copy it reuses is durable.
- The incremental merge falls back to the new rows alone when the previous
  output cannot be read (`src/r64_db_engine/core/daemon.py:321-323`). Committed
  or not, such a publish loses rows exactly when some were held at or below the
  old cursor.
- A row that lands above the old cursor between a pull's query and its commit is
  lost exactly when it is not above the new one, and no later pull, crash or
  restart brings it back. Over any run, a target misses a row exactly when some
  step was one of three: a publish over held rows it could not read back, a
  commit past a row that landed after the query, or an arrival at or below the
  cursor. The exactly-once results are about runs without them.
- Only the ramdb sink takes incremental tables, and it fsyncs nothing while the
  state database commits: a power loss can leave the cursor ahead of the output
  for good. No power loss makes a target miss a row exactly when the file is
  durable or no row was held.
- An unbounded pull over a stored composite cursor always fails
  (`src/r64_db_engine/drivers/postgres/driver.py:485-494`).
- Page-number pagination never signals an end
  (`src/r64_db_engine/drivers/rest/engine.py:309-318`): such a recipe always
  raises. A cursor recipe whose cursor parameter is named `__link__` adopts
  the provider's value as a URL, which the loader says cursors never do
  (`src/r64_db_engine/drivers/rest/recipes.py:200-206`); it is still confined.
- Scrubbing leaves a secret behind on some text exactly when `redacted` itself
  is registered, for secrets without the marker's guillemets.
- The ramdb writer fsyncs nothing, so a power loss can take its output and what
  it replaced; the Arrow sink's output survives. Start-up cleanup removes a
  published file exactly when its target opens with a dot and, followed by a
  dot, contains the tempfile mark.
- The connected flag is set only when the daemon starts
  (`src/r64_db_engine/core/daemon.py:131`). Over any sequence of pulls it is up
  exactly when it was and none of them dropped the connection, so one drop keeps
  the overall status at error however many pulls land afterwards, the dropping
  one included.
- A pull whose schema baseline or history entry cannot be stored has published
  its rows and committed its cursor, and takes the failure path
  (`src/r64_db_engine/core/daemon.py:229-265`).
- The stored cursor and baseline are read after the in-flight flag is raised and
  before the block that lowers it (`src/r64_db_engine/core/daemon.py:161-172`).
  When that read fails the flag stays up until a restart, nothing is logged, no
  status changes, and every later call for the target only logs a skip. A
  target's own loop does not even come to that: an exception out of a pull,
  from there or from a history the failure path cannot write, ends the loop
  (`src/r64_db_engine/core/daemon.py:147-152`) while the status goes on saying
  what the pull before it left.
- The module the generator emits agrees with the hand-built driver on every
  dtype, but on every value exactly when the registry has each coercer key that
  can be asked for: a missing one is a ValueError in one
  (`src/r64_db_engine/conformance/generator.py:113-124`) and a KeyError in the
  other (`src/r64_db_engine/drivers/postgres/coercion.py:236-245`).
- An output column declared twice under one name is accepted by the loader
  (`src/r64_db_engine/drivers/rest/recipes.py:315-347`), and both columns then
  hold the later declaration's values.
- A corroborating aggregate is documented as never gating, but a missing one
  gates (`factory/battery.py:533-548`). A declared tolerance is widened by the
  default relative tolerance of `math.isclose` (`factory/battery.py:553`): it
  bounds the difference exactly for values up to a thousand million times it. A
  null discriminator declared with a count of zero can never pass. A checksum
  failure names the data layer though its first failing comparison carries the
  other code (`factory/battery.py:1015-1030`). It compares schemas as dicts, so
  a change in nothing but the order of the columns is named bytes-only
  (`factory/battery.py:995-996`), while the schema judge takes it for another
  artifact.
- The Arrow sink's batches restart at each chunk of the table
  (`src/r64_db_engine/sinks/arrow_ipc.py:304-322`), so the file has the layout
  the block judge expects exactly when each chunk that rows follow holds whole
  blocks.
- The boundary check's documentation lists sums among what a uniform shift
  leaves unchanged (`factory/battery.py:761-762`); the integer sum changes
  whenever the column holds a value.

## Model

| member | source | states |
|---|---|---|
| Cursor.StoredMarkRoundTrip | src/r64_db_engine/drivers/postgres/driver.py:520-535 | every mark, encoded, stored and read back, is itself, for all ints; the only refusal is a composite cursor read by an unbounded pull |
| Cursor.MarkTextInjective | src/r64_db_engine/core/state.py:78-114 | no two marks share a stored text, so the two encodings are never confused |
| Cursor.TextOfPair | src/r64_db_engine/drivers/postgres/driver.py:520-535 | the composite cursor's text, character by character |
| Incremental.BuildQuery | src/r64_db_engine/drivers/postgres/driver.py:465-510 | the clause-by-clause construction is the query the mode, stored cursor and limit call for, or the refusal of an undecodable cursor |
| Incremental.NewMarkIsGreatest | src/r64_db_engine/drivers/postgres/driver.py:538-565 | the next watermark is the greatest (key, primary key) of the batch, whatever order the batch came in |
| Incremental.QueryCuts | src/r64_db_engine/drivers/postgres/driver.py:485-510 | under any arrangement the database picks, a pull brings exactly the rows between the old mark and the new one, each once |
| Incremental.CutSurvivesArrival | src/r64_db_engine/drivers/postgres/descriptor.py:36-39 | a row landing above the new mark leaves a batch in hand exact |
| Lanes.ConservedLosesNothing | src/r64_db_engine/core/daemon.py:229-243 | under the conservation invariant no row at or below the stored cursor is missing, and a row is there more than once only if it was published without a commit |
| Lanes.PublishConserves | src/r64_db_engine/core/daemon.py:229-232 | a publish, committed later or never, keeps everything the old cursor promises if and only if the previous output was read back or nothing was held at or below the cursor |
| Lanes.PullConserves | src/r64_db_engine/core/daemon.py:229-243 | publish then commit moves the promise to the new cursor, under the same condition; a first pull overwrites, so it leaves no extra copies |
| Lanes.ArrivalConserves | src/r64_db_engine/drivers/postgres/descriptor.py:36-39 | rows arriving above the cursor keep the invariant |
| Lanes.ReadBackMatters | src/r64_db_engine/core/daemon.py:311-323 | a pull whose read-back may fail loses nothing, committed or refused, if and only if the read-back works or nothing was at or below the old cursor |
| Lanes.LateRowLostExactly | src/r64_db_engine/drivers/postgres/driver.py:538-565 | a row that lands between query and commit, above the old cursor, is missed after the commit if and only if it is not above the new one |
| Lanes.MissedStaysMissed | src/r64_db_engine/drivers/postgres/driver.py:496-508 | a row at or below the cursor that is not in the output is still so after a pull of any size |
| Lanes.OneAnswer | src/r64_db_engine/drivers/postgres/driver.py:496-508 | a bounded query has one answer, however the database arranges ties |
| Lanes.CutIsNextRows | src/r64_db_engine/drivers/postgres/driver.py:496-508 | a bounded batch is what one uninterrupted pull of its own size would bring at commit time |
| Lanes.BatchKeepsOrder | src/r64_db_engine/core/daemon.py:311-320 | appending a bounded batch to ordered output gives the ordered rows up to the new mark |
| Lanes.BatchSizesDoNotMatter | src/r64_db_engine/drivers/postgres/driver.py:496-565 | over a fixed table any sequence of batch sizes leaves the first rows in order by their sum; once the sum reaches the table, the output is the ordered table and further pulls change nothing |
| Schedule.StepKeeps | src/r64_db_engine/core/daemon.py:154-213 | every step of the interleaved event loop keeps the scheduling and conservation invariant, when rows land above the marks in use and a read-back does not fail over held rows |
| Schedule.EveryRunIsSerial | src/r64_db_engine/core/daemon.py:154-213 | in every run whatsoever: one active pull per target, at most pool-size in the semaphore, at most four attempts each, each still based on the stored cursor |
| Schedule.OrderlyRunConserves | src/r64_db_engine/core/daemon.py:169-243 | after every orderly run each output is the rows up to its cursor once each, plus uncommitted publishes, and misses none |
| Schedule.StuckExactly | src/r64_db_engine/core/daemon.py:154-189 | until the process restarts, a target's flag is up with nothing left to lower it if and only if it was, or a call over a lowered flag could not read the stored state; its output and cursor then stay as they are |
| Schedule.CommitIsAtomicPull | src/r64_db_engine/core/daemon.py:169-183 | a pull that lands lands exactly the rows between the stored cursor and its own mark as they are at its commit; a bounded one is one uninterrupted pull made at that instant; no other lane is touched |
| Schedule.ExactlyOnceInOrder | src/r64_db_engine/core/daemon.py:169-243 | in every orderly run of bounded pulls whose publishes are all committed, however interleaved, each output is exactly the source rows at or below its cursor, once each, in (key, pk) order |
| Promises.WeakStep | src/r64_db_engine/core/daemon.py:154-213 | with nothing assumed of arrivals and read-backs, every step keeps rows in hand between their marks, outputs made of source rows, and every task on its stored cursor |
| Promises.LandingLosesExactly | src/r64_db_engine/core/daemon.py:229-243 | a landing loses a row if and only if it publishes over held rows it could not read back, or commits past a row that landed after its query |
| Promises.MissedForGood | src/r64_db_engine/core/daemon.py:154-243 | no run, crashes and restarts included, brings a missed row back |
| Promises.PromiseKeptExactly | src/r64_db_engine/core/daemon.py:154-243 | after any run, no target misses a row at or below its cursor if and only if no step was lossy when it was taken |
| Promises.LateRowIsLost | src/r64_db_engine/drivers/postgres/driver.py:538-565 | a concrete row that lands between query and commit, below the new mark, and is missed |
| Schedule.UnboundedOverCompositeIsStuck | src/r64_db_engine/drivers/postgres/driver.py:485-494 | over a composite cursor no unbounded pull is ever answered; over a plain one it is |
| Daemon.Daemon.constructor | src/r64_db_engine/core/daemon.py:59-84 | a new process starts disconnected, on the state and output files it finds, with fresh runtime state for every target |
| Daemon.Waits | src/r64_db_engine/core/daemon.py:126-143 | the attempts before the first that is accepted, refused for good or overtaken by a shutdown |
| Daemon.BackoffReachesCap | src/r64_db_engine/core/daemon.py:142-143 | waits double from five seconds to the cap of sixty, reached by the fifth, and stay there |
| Daemon.Daemon.Connect | src/r64_db_engine/core/daemon.py:126-143 | the loop ends with the first decisive attempt, has waited exactly the backoff before it, and leaves the connected flag set exactly when it was accepted |
| Daemon.Settling | src/r64_db_engine/core/daemon.py:191-213 | the settling attempt is the first that returns or raises permanently, else the last; all before it failed transiently |
| Daemon.Daemon.RunWithRetries | src/r64_db_engine/core/daemon.py:191-213 | at most four attempts, stopping at the settling one; the connected flag is cleared by a dropped connection and never set |
| Daemon.Daemon.MergeIncremental | src/r64_db_engine/core/daemon.py:311-323 | the new rows after the previous output, or alone when there is none or it cannot be read |
| Daemon.Daemon.Publish | src/r64_db_engine/core/daemon.py:224-232 | an incremental pull over a stored cursor appends; a first pull and a full refresh replace the output; a refused write changes nothing |
| PullLog.SchemaDrift | src/r64_db_engine/core/coercion.py:189-215 | drift is reported exactly when there is a baseline and the columns, by name and dtype, are not the baseline's |
| Daemon.Daemon.Land | src/r64_db_engine/core/daemon.py:224-262 | output before cursor before schema baseline: how far it gets fixes the outputs, the state database, the watermark shown and the drift flag, and whether it counts as a success; the rest of the runtime state is as it was |
| Daemon.EnteredSettles | src/r64_db_engine/core/daemon.py:224-262 | that changes no other target, and of this one exactly the output, the cursor and the baseline it got to |
| Daemon.Daemon.HandleSuccess | src/r64_db_engine/core/daemon.py:215-279 | the success is noted exactly when every call on the way and its own history entry worked: healthy, no failures, the batch size as the last row count and added to the total |
| Daemon.Daemon.HandleFailure | src/r64_db_engine/core/daemon.py:293-309 | one failure entry; then the table is broken if the error was permanent or at least three failures of its newest twenty pulls have no success started after them, and degraded otherwise; when the entry or the count fails, the status stays and the error escapes |
| Daemon.Daemon.PullOnce | src/r64_db_engine/core/daemon.py:154-189 | over a raised flag only a skip is logged; the flag is up afterwards exactly when it was or the stored cursor or baseline could not be read, which changes nothing else and logs nothing; otherwise what the target keeps, its history and the connected flag are fixed by the driver's last word and by which later call fails; a pull that succeeds leaves the table healthy with its rows added, one that fails leaves it broken exactly when its last word is a permanent error or three failures among the newest twenty have no success started after them, and degraded otherwise, with that number as its count; and exactly when the call ends in an exception |
| Daemon.Daemon.TableLoop | src/r64_db_engine/core/daemon.py:147-152 | a target's loop makes the pulls, and leaves the status and the flag, that its worlds prescribe; no other target moves |
| Daemon.LoopEndsExactly | src/r64_db_engine/core/daemon.py:147-189 | a loop goes on exactly as long as no pull of it raises; at the first that does it ends for good, with the status the pull before left, and with the flag up exactly when the stored state could not be read |
| Daemon.Daemon.Overall | src/r64_db_engine/core/daemon.py:333-343 | an error exactly when disconnected or some table is broken; healthy exactly when connected with no table degraded, broken or drifted |
| Service.MoveIsLanding | src/r64_db_engine/core/daemon.py:169-243 | when the driver answers from its query, what the daemon keeps of a target moves as the lane's publish and commit do |
| Service.Serve | src/r64_db_engine/core/daemon.py:147-189 | any sequence of calls for any targets, over any flags: a flag is up afterwards if it was or some call could not read its target's state; the calls that run move outputs and cursors as the lanes', leave each table the status its last word and its history call for, and take the connected flag down if one of them dropped the connection; a broken table or a lost connection makes the overall status an error; the history has what each call leaves |
| Service.FlagsExactly | src/r64_db_engine/core/daemon.py:161-170 | a target's flag is up after any sequence of calls if and only if it was before, or some call for it could not read its stored cursor or baseline |
| Service.UnansweredIsForGood | src/r64_db_engine/core/daemon.py:154-170 | after the first such call, whatever is called later, no pull of that target runs: its output, its cursor and what its status says stay as they are |
| Service.PermanentBreaks | src/r64_db_engine/core/daemon.py:293-309 | a target whose last pull ends in a permanent error is broken, whatever came before |
| Service.PromiseKeptExactly | src/r64_db_engine/core/daemon.py:154-243 | over any sequence of pulls that run, with rows landing in between, no target misses a row if and only if no pull wrote over held rows it could not read back and no row landed at or below a cursor; and then every output is conserved |
| Service.DropOutlastsSuccess | src/r64_db_engine/core/daemon.py:191-213 | a pull that drops the connection and then lands, whatever it brings and whatever lands later: its table is healthy, and the run has lost the connection |
| Refinement.PullIsRun | src/r64_db_engine/core/daemon.py:154-213 | one call of the daemon is a run of the event loop, from whatever state that is in: attempted as often, its lane moved as the call moves it, its flag and permit given back and nothing else changed; a call that cannot read its stored state raises the flag and does no more |
| PullLog.PrunedLogRefinesFullLog | src/r64_db_engine/core/state.py:136-162 | after any interleaving of inserts, each target's entries are exactly the newest hundred of its unpruned log |
| PullLog.KeptExactly | src/r64_db_engine/core/state.py:154-162 | by start times alone, an entry is kept if and only if fewer than a hundred of its target started after it |
| PullLog.ReadersSeeFullLog | src/r64_db_engine/core/state.py:164-200 | recent history up to a hundred entries and the failure streak are what the unpruned log would answer |
| PullLog.StreakExactly | src/r64_db_engine/core/state.py:185-200 | the streak is the number of failures, among the twenty of the target that started last, that no success started after |
| PullLog.SinceSuccess | src/r64_db_engine/core/state.py:194-200 | the entries newer than the newest success: a prefix holding no success, stopped by one or by the end |
| PullLog.CountFailures | src/r64_db_engine/core/state.py:194-200 | the counting loop counts the failures since the newest success; skips neither count nor stop it |
| PullLog.StateStore.constructor | src/r64_db_engine/core/state.py:70-114 | a fresh store has no watermark, no baseline and no history |
| PullLog.StateStore.SetWatermark | src/r64_db_engine/core/state.py:91-114 | insert, or update on conflict, of one target's watermark |
| PullLog.StateStore.RecordPull | src/r64_db_engine/core/state.py:136-162 | insert and prune: an entry, of all ever recorded, is in the table if and only if fewer than a hundred of its target started after it |
| PullLog.StateStore.RecentHistory | src/r64_db_engine/core/state.py:164-183 | exactly the entries that fewer than the limit of their target started after, each started later than the next |
| PullLog.StateStore.ConsecutiveFailures | src/r64_db_engine/core/state.py:185-200 | the number of failures, among the twenty that started last of all ever recorded, that no success started after |
| Disk.Drive.Replace | factory/evidence.py:356-386 | write, fsync, rename, fsync the directory: the journal of every state passed through, and a durable destination with no temporary left |
| Disk.AtomicTouchesOnly | factory/evidence.py:356-386 | stopped anywhere, the destination is as it was or complete and fsynced, and nothing else is touched but the temporary |
| Evidence.Store.AtomicCopyVerified | factory/evidence.py:356-386 | the copy is atomic and durable, and is accepted exactly when the bytes hash to what was expected |
| Evidence.Store.RecordArtifact | factory/evidence.py:455-546 | a refusal changes nothing and happens exactly on corruption without repair; a normal return leaves the entry with the bytes its digest claims; a repair is on record with the hash the entry had and with what stood under the name its bytes were moved to; the states passed through are exactly those listed |
| Evidence.Store.Preserve | factory/evidence.py:481-499 | corrupt bytes are whole under the name of their own hash before the entry is touched; fresh, completed or already complete |
| Evidence.CallKeeps | factory/evidence.py:463-530 | one call, complete or killed at any state, keeps corrupt bytes in the entry or whole in the preserved copy |
| Evidence.CorruptionOutlivesCalls | factory/evidence.py:463-530 | over any sequence of calls, complete or killed anywhere, corrupt bytes are never destroyed |
| Evidence.CorruptionOutlivesPowerLoss | factory/evidence.py:356-364 | with power losses at any instant but no kills, durable corrupt bytes stay durable |
| Evidence.RepairPowerSafeExactly | factory/evidence.py:495-502 | a repair survives a power loss at every instant if and only if a preserved copy it would reuse is durable |
| Evidence.KillThenPowerLossCanDestroy | factory/evidence.py:495-502 | a kill, a second repair and a power loss that destroy the corrupt bytes |
| Publish.WriteRamdb | src/r64_db_engine/core/ramdb_writer.py:76-101 | the tempfile is written and renamed; no fsync is among the states passed through |
| Publish.WriteArrow | src/r64_db_engine/sinks/arrow_ipc.py:184-212 | the same with both fsyncs, so the output is durable on return |
| Publish.RamdbNeverPartial | src/r64_db_engine/core/ramdb_writer.py:93-101 | stopped anywhere, the published path is as it was or holds the whole new frame |
| Publish.OnlyArrowSurvivesPower | src/r64_db_engine/sinks/arrow_ipc.py:203-206 | no power loss takes a returned Arrow write; one can take a returned ramdb write |
| Outage.OutageLosesExactly | src/r64_db_engine/core/ramdb_writer.py:76-101 | with the cursor committed, no power loss makes the target miss a row if and only if its output file is durable or no row is held at or below the cursor |
| Outage.RamdbCursorOutlivesOutput | src/r64_db_engine/core/ramdb_writer.py:93-101 | after a ramdb publish and its commit, a power loss can leave every row at or below the cursor missing, and no later pull of any size brings one back |
| Publish.ReaderSeesWholeFrames | src/r64_db_engine/core/ramdb_writer.py:76-101 | in every interleaving of writers, kills and cleanups a reader finds nothing or one whole frame given for that target |
| Publish.FlipPublishes | src/r64_db_engine/core/ramdb_writer.py:76-101 | what is published under a target changes by a rename of one of its writers alone, and then to that writer's whole frame; a kill may come at any moment and changes no file; a writer that is done leaves no tempfile |
| Publish.PublishedSweptExactly | src/r64_db_engine/core/ramdb_writer.py:103-115 | the sweep takes a published file exactly when its target opens with a dot and contains the tempfile mark |
| Publish.CleanupIsExact | src/r64_db_engine/core/ramdb_writer.py:103-115 | cleanup leaves no tempfile, changes no other file, and removes exactly those published files |
| Codec.RaiseOnUnsafe | src/r64_db_engine/core/ramdb_writer.py:161-173 | the guard refuses, naming the first unsafe value, exactly when narrowing to 32 bits would change some cell |
| Codec.ApplyNullFill | src/r64_db_engine/core/ramdb_writer.py:118-147 | over a copy, nulls become zero, the empty text or false by kind and every other cell stays; floats keep their nulls |
| Codec.RepublishingFillsOnce | src/r64_db_engine/core/daemon.py:311-320 | any number of read-backs, merges and rewrites equals filling the whole concatenation once, cell by cell |
| Json.DottedGet | src/r64_db_engine/drivers/rest/engine.py:130-155 | the segment loop finds what the path names, with absence as null |
| Json.LocateComposes | src/r64_db_engine/drivers/rest/engine.py:130-155 | looking up a.b is looking up b in what a names, absence included |
| Json.LocateMember | src/r64_db_engine/drivers/rest/engine.py:130-155 | a path of one name is that member of an object and absent from anything else; the empty path is the document |
| Json.LocateItem | src/r64_db_engine/drivers/rest/engine.py:130-155 | a bracketed index is that element of a list, from the end when negative, and absent outside it |
| Json.LocateItemOf | src/r64_db_engine/drivers/rest/engine.py:130-155 | a name followed by an index is that element of that member |
| Json.LocateNext | src/r64_db_engine/drivers/rest/engine.py:130-155 | indexes in a row are followed one after the other |
| Json.PartitionedExactly | src/r64_db_engine/drivers/rest/engine.py:130-155 | a path segment is split at its first bracket and nowhere else |
| Recipes.ParseRecipes | src/r64_db_engine/drivers/rest/recipes.py:355-358 | all recipes parse, in order, or the book is refused |
| Recipes.IndexByName | src/r64_db_engine/drivers/rest/recipes.py:359-363 | accepted exactly when the names are distinct, and then each recipe is found under its own |
| Recipes.BindingsReadSeen | src/r64_db_engine/drivers/rest/recipes.py:393-399 | true exactly when every binding reads a recipe that has already run |
| Recipes.ParseThreading | src/r64_db_engine/drivers/rest/recipes.py:365-401 | accepted exactly when every step parses, names a defined recipe, supplies declared inputs only and binds from earlier steps only |
| Recipes.ParseOutput | src/r64_db_engine/drivers/rest/recipes.py:315-347 | accepted exactly when there is a column and each one parses |
| Recipes.AcceptedIsWellFormed | src/r64_db_engine/drivers/rest/recipes.py:169-230 | every accepted book has pageable recipes under their own names, threaded in order |
| Documents.BookExactly | src/r64_db_engine/drivers/rest/recipes.py:350-419 | a book is accepted from a document if and only if it is, value by value, what the document says: so no document says two books, and a refused one says none |
| Documents.RecipeExactly | src/r64_db_engine/drivers/rest/recipes.py:249-312 | a recipe is accepted exactly as its document says it: name, upper-cased method, pinned URL, pagination, extract, declared inputs and static parameters, under the loader's key, method, URL and auth rules |
| Documents.PagesExactly | src/r64_db_engine/drivers/rest/recipes.py:169-230 | a pagination is accepted exactly as its document says it, with the defaults of the keys it lacks |
| Documents.ExtractExactly | src/r64_db_engine/drivers/rest/recipes.py:233-246 | an extract is accepted exactly as its document says it: a text is a path to records, a mapping names its shape |
| Documents.StepExactly | src/r64_db_engine/drivers/rest/recipes.py:365-391 | a threading step is accepted exactly as its document says it |
| Documents.ColumnExactly | src/r64_db_engine/drivers/rest/recipes.py:315-345 | an output column is accepted exactly as its document says it |
| Recipes.ParseBook | src/r64_db_engine/drivers/rest/recipes.py:350-419 | accepts exactly the books whose parts parse, limits included, under distinct names in order, and an accepted book is well formed |
| Engine.ConfineNextUrl | src/r64_db_engine/drivers/rest/security.py:220-326 | a URL is adopted exactly when it is https, without userinfo, on the pinned host and port and on the pinned or a declared path; then only its query is the provider's |
| Engine.Transpose | src/r64_db_engine/drivers/rest/engine.py:260-281 | accepted exactly when all arrays have one length; then one row per index holding every array's element |
| Engine.ExtractsExactly | src/r64_db_engine/drivers/rest/engine.py:242-281 | a payload extracts exactly when it has a list at the path, or at least one array there and all of one length |
| Engine.Objects | src/r64_db_engine/drivers/rest/engine.py:252-258 | nothing is dropped exactly when every element is an object |
| Engine.ObjectsInTwo | src/r64_db_engine/drivers/rest/engine.py:252-258 | elements are taken one by one, in order; an object is one row and anything else none |
| Engine.RunPages | src/r64_db_engine/drivers/rest/engine.py:517-574 | the page loop stops at the first page that does not go on or at the cap; records are the concatenated extracts; the payload returned is the first page's; each request is as the pages before it left it |
| Engine.RunRecipe | src/r64_db_engine/drivers/rest/engine.py:499-574 | returns normally if and only if some page within the cap ends the sequence and all earlier ones go on, and then with the first page's payload; at most max_pages requests; undeclared inputs are refused before any |
| Engine.EndsWhenToldExactly | src/r64_db_engine/drivers/rest/engine.py:284-321 | a page ends the sequence exactly when it extracts and the provider signalled an end |
| Engine.GoesOnExactly | src/r64_db_engine/drivers/rest/engine.py:517-574 | a page leads to another exactly when it extracts, the provider did not say it was the last, and the link, where links are followed, is one that may be adopted; then that link is |
| Engine.NumberedPagesNeverEnd | src/r64_db_engine/drivers/rest/engine.py:309-318 | with page-number pagination no page ever ends the sequence, so the recipe can only raise |
| Engine.EveryRequestConfined | src/r64_db_engine/drivers/rest/engine.py:519-560 | every requested URL keeps the pinned scheme and authority and the pinned or a declared path |
| Engine.CursorAdoptsUrlExactly | src/r64_db_engine/drivers/rest/engine.py:542-560 | a cursor recipe that goes on adopts a provider URL exactly when its cursor parameter is the engine's own link key |
| Engine.CursorIsSent | src/r64_db_engine/drivers/rest/engine.py:299-308 | the cursor found in a page goes out with the next request |
| Engine.NumberIsSent | src/r64_db_engine/drivers/rest/engine.py:309-318 | after page n a numbered recipe asks for page n + 1, with the declared page size |
| Engine.FirstRequest | src/r64_db_engine/drivers/rest/engine.py:499-519 | the first request goes to the pinned URL with every supplied input and, under other names, every static one |
| Engine.BindInputs | src/r64_db_engine/drivers/rest/engine.py:598-608 | bindings over literal parameters, or the refusal of one that resolves to nothing |
| Engine.ReadsExactly | src/r64_db_engine/drivers/rest/engine.py:598-608 | a binding names a step before its first dot and a path after it |
| Engine.InputsExactly | src/r64_db_engine/drivers/rest/engine.py:598-608 | the inputs of a step are its literal ones and, over them, for each binding the value found in the named payload |
| Engine.StepCannotGoWrong | src/r64_db_engine/drivers/rest/engine.py:596-610 | at each step of a well-formed book the recipe exists, its inputs are declared and every producer has run |
| Engine.RunBook | src/r64_db_engine/drivers/rest/engine.py:577-611 | the result is the last step's complete records; every request of every step is sent from the step's own inputs, its bindings read from the first page of the steps they name; a well-formed book never fails in a way the loader should have prevented |
| Engine.Pull | src/r64_db_engine/drivers/rest/engine.py:577-611 | for every document the loader accepts: the same; no unknown recipe, no undeclared input, no producer that has not run, no invariant error |
| Engine.RecordsToFrame | src/r64_db_engine/drivers/rest/engine.py:617-646 | the declared columns in declared order, each the converted values of the last declaration of its name; it raises exactly when some column does not convert |
| Engine.OwnColumnsExactly | src/r64_db_engine/drivers/rest/engine.py:626-646 | every declared column is filled from its own declaration if and only if no name is declared twice |
| Engine.ColumnarRoundTrip | src/r64_db_engine/drivers/rest/engine.py:499-646 | when a columnar recipe returns, an output column over its records is the concatenation of what the pages asked for hold of its source |
| Engine.RecordsAsGiven | src/r64_db_engine/drivers/rest/engine.py:252-258 | a records recipe that returns has, page by page, the objects found at its path, in the order the provider gave them |
| Engine.NothingTruncated | src/r64_db_engine/drivers/rest/engine.py:264-281 | a columnar recipe returns only over pages whose arrays all have one length: a page of unequal ones is refused, never cut |
| Scrub.QuoteRoundTrip | src/r64_db_engine/core/scrub.py:81 | both URL-encoded forms decode to the secret |
| Scrub.QuoteOne | src/r64_db_engine/core/scrub.py:81 | a character is left as it is exactly when it is unreserved in section 2.3 of RFC 3986, and a space becomes a plus sign in the second form alone |
| Scrub.OccurredBefore | src/r64_db_engine/core/scrub.py:80-90 | no redaction, literal or by name, brings forth text that stands apart from the marker |
| Scrub.ReplaceRemoves | src/r64_db_engine/core/scrub.py:81-83 | after its replacement no occurrence of a form is left, none newly formed included |
| Scrub.ReplaceFirst | src/r64_db_engine/core/scrub.py:83 | up to its first occurrence a text is kept, the occurrence becomes the marker, and the rest is replaced in its turn |
| Scrub.ScrubRemoves | src/r64_db_engine/core/scrub.py:78-90 | for every text and every order, no secret and no encoded form of one is in the output, when none can share text with the marker |
| Scrub.CleanExactly | src/r64_db_engine/core/scrub.py:78-90 | for secrets without guillemets, scrubbing is clean on every text if and only if the marker's word is not registered |
| Scrub.PassSettles | src/r64_db_engine/core/scrub.py:84-89 | after a plain key's pass every value of it is the marker and nothing more |
| Scrub.RedactFirst | src/r64_db_engine/core/scrub.py:84-89 | up to the first value of a key a text is kept, the value becomes the marker up to where it stops, and the rest is redacted in its turn |
| Scrub.KeysSettle | src/r64_db_engine/core/scrub.py:84-89 | after all passes, in any order, that holds for every plain key |
| Scrub.ScrubKeepsTheRest | src/r64_db_engine/core/scrub.py:78-90 | the output is the text with nothing but forms of secrets replaced by the marker and then nothing but values of registered keys; all else stands, in order |
| Scrub.ScrubTwice | src/r64_db_engine/core/scrub.py:78-90 | scrubbing scrubbed text changes nothing, even in other orders |
| Scrub.Scrubber.constructor | src/r64_db_engine/core/scrub.py:56-58 | nothing is registered |
| Scrub.Scrubber.RegisterSecret | src/r64_db_engine/core/scrub.py:70-72 | registered exactly from eight characters up |
| Scrub.Scrubber.RegisterAuthKey | src/r64_db_engine/core/scrub.py:74-76 | registered exactly when not empty |
| Scrub.Scrubber.Scrub | src/r64_db_engine/core/scrub.py:78-90 | the two loops give the scrub for some order of each set: no secret left, every plain key settled, and nothing else touched |
| Judges.VerdictNamesFirst | factory/battery.py:199-220 | a check judged by its comparisons passes when all hold and otherwise names the first that does not, with a code that owns a mechanism |
| Judges.CheckAggregateParity | factory/battery.py:516-593 | passes exactly when an aggregate is declared, each is in both maps, and each that does not corroborate has equal values or, where both are numbers under a positive tolerance, values no further apart than it or the relative bound; a failure is named after the first that gates |
| Judges.ToleranceBoundsExactly | factory/battery.py:552-555 | a declared tolerance bounds the difference of all values up to a size if and only if the size is at most a thousand million times the tolerance |
| Judges.LargeValuesAreNot | factory/battery.py:552-555 | for every larger size, two values within it that the tolerance does not bound |
| Judges.NullsCounted | factory/battery.py:755-770 | the null count is the number of nulls, and each value is there as often as in the column |
| Judges.DistinctCounted | factory/battery.py:755-770 | the distinct count is the size of the set of values |
| Judges.CheckNullDiscriminator | factory/battery.py:639-737 | passes exactly when a discriminator is declared and each has its nonzero declared null count, agrees with the ground truth and hides no NaN; skipped exactly on an empty declaration with a reason; a failure is named after the first that does not, the ground truth before the count and the count before its NaNs |
| Judges.CheckBoundary | factory/battery.py:776-821 | passes exactly when a boundary column is declared and each has the source's own bounds; a failure is named after the first that does not: unprobed, absent or diverged |
| Judges.ShiftSeenExactly | factory/battery.py:755-770 | a nonzero uniform shift leaves row, null and distinct counts; it changes the bounds, and the integer sum, exactly when some value is not null |
| Judges.ShiftedColumnFails | factory/battery.py:776-821 | the boundary check fails every artifact with a boundary column that is shifted and holds a value, and with the divergence code when all its columns are there |
| Judges.SumMinorUnits | factory/conformance.py:170-176 | the int64 accumulation is the true sum wrapped once, and equal to it exactly when it fits |
| Judges.SumIgnoresOrder | factory/conformance.py:170-176 | the exact-int sum is the same for every order of the rows |
| Judges.LayoutUnique | factory/battery.py:889-901 | a row count has one layout of full blocks and a remainder |
| Judges.ExpectedBlockRows | factory/battery.py:889-901 | that layout, and none for an empty table |
| Judges.WriteIpcFile | src/r64_db_engine/sinks/arrow_ipc.py:304-322 | the batch loop writes every row of every chunk once, in order; the file has the layout of its row count if and only if each chunk that rows follow holds whole blocks |
| Judges.CheckBlockStructure | factory/battery.py:904-936 | passes exactly on that layout |
| Oracle.CheckRegistryAdmission | factory/battery.py:306-400 | passes exactly when the dialect resolves to a driver of its own name, is listed, and an unregistered one is refused on both surfaces with the whole registry spelled out; a failure names the first of these that is not so |
| Oracle.CheckSchemaExactness | factory/battery.py:427-480 | passes exactly on the declared columns in order, with types alike up to the string-width fold; a failure names the count, else the names or their order, else the types |
| Oracle.CheckRefusal | factory/battery.py:829-881 | passes exactly when incremental mode is refused with a message naming the cause |
| Oracle.CheckChecksum | factory/battery.py:944-1031 | passes exactly on equal, nonempty digests; a failure is named bytes-only exactly when row counts, column types by name, block layouts and aggregates agree, and its first failing comparison says bytes-only either way |
| Oracle.SameDictExactly | factory/battery.py:995-996 | two ordered schemas are compared as equal there if and only if they have the same columns in any order |
| Oracle.ReorderedIsBytesOnly | factory/battery.py:944-1031 | two pulls that differ in digest and in the order of their columns alone: the schema judge fails them, the checksum judge names only the bytes |
| Oracle.CheckServeGate | factory/battery.py:1039-1105 | skipped exactly without both passes' counters; passes exactly when nothing is copied, the cold pass decodes in place and the warm one neither misses nor decodes; a failure names the first of these that is not so |
| Oracle.CheckRecipeSecurity | factory/battery.py:1113-1161 | passes exactly when mutations were attempted and each was refused |
| TypeNames.FixedExactlyWhenNormal | src/r64_db_engine/drivers/postgres/coercion.py:211-216 | normalising is idempotent, and its fixed points are exactly the names in normal form |
| TypeNames.SuffixIgnoredExactly | src/r64_db_engine/drivers/postgres/coercion.py:193-195 | a parenthesised suffix is ignored if and only if the name before it leaves no parenthesis open |
| TypeNames.NormalizeGroup | src/r64_db_engine/drivers/postgres/coercion.py:211-216 | of a name with one group in it, the text on either side is kept, in lower case, with single spaces |
| TypeNames.NormalizePlain | src/r64_db_engine/drivers/postgres/coercion.py:211-216 | a name without a group is kept, in lower case, with single spaces and none at its ends |
| Generator.StringRoundTrip | src/r64_db_engine/conformance/generator.py:83-87 | the literal emitted for any text reads back as the text, whatever follows it |
| Generator.LiteralsAreOneLine | src/r64_db_engine/conformance/generator.py:67-87 | no literal, whatever the text or table, breaks the line it is emitted on |
| Generator.TablesRoundTrip | src/r64_db_engine/conformance/generator.py:83-87 | reading the emitted assignments gives back the spec's tables and defaults, for every text in them |
| Generator.FindExactly | src/r64_db_engine/conformance/generator.py:97-101 | a table gives a key what its last binding has, and nothing when there is none |
| Generator.DtypeAgreesExactly | src/r64_db_engine/conformance/generator.py:97-101 | for any spec, the emitted dtypes agree with the hand-built ones on every type string if and only if arrays, unknown types and each name bound in either table have the same one |
| Generator.CoerceAgreesExactly | src/r64_db_engine/conformance/generator.py:104-125 | for any spec and registry, the emitted coercion agrees with the hand-built one on every value and type string, errors included, if and only if for each name the registry lacks neither key and the two coercers agree on present values |
| Generator.RegenerationPreserves | src/r64_db_engine/drivers/postgres/coercion.py:190-245 | the module read back from the text emitted for the Postgres spec gives every type string its dtype, and coerces every value alike if and only if the registry has each key it can be asked for |
| TypeNames.UnwrapType | src/r64_db_engine/drivers/clickhouse/coercion.py:146-152 | the loop ends, with no wrapper left |
| TypeNames.NestingIsTransparent | src/r64_db_engine/drivers/clickhouse/coercion.py:108-112 | any nesting of the wrappers, in any case, has the base name of what they wrap |
| TypeNames.BaseNameKept | src/r64_db_engine/drivers/clickhouse/coercion.py:108-112 | a name that no wrapper opens is its own base name, with or without parameters |
| TypeNames.TheWrappers | src/r64_db_engine/drivers/clickhouse/coercion.py:146-152 | the two wrappers as ClickHouse writes them, and in one case throughout |

## Left out

- Keys are ints and never null. Timestamps, collation and the encodings of other key types are not modelled; `max` skips nulls while the sorted last row need not, so a nullable key is outside every cursor result.
- Stored cursor text is the compact two-int object the driver itself writes, or an int. Other JSON texts, and the underscores, spaces and plus signs Python's `int` accepts, are not.
- Rows are immutable and the primary key is unique. The pulls over ClickHouse make no exactly-once claim and are not modelled; lanes are targets in incremental mode.
- The target with no configuration, log events, timestamps of success and failure, cancellation at shutdown and the delays between retries are not part of `Daemon`.
- RecordPull: says which entries are kept, and the readers which they find, when no two pulls of a target start at the same instant; the database leaves the order of equal starts open.
- In `Daemon` and `Service` one pull runs at a time; interleaving is `Schedule`, which works on values. A table's runtime state is a value written back, not an object shared with its readers.
- A committed cursor is durable: what the state database itself does on a power loss is not modelled.
- The hash is injective and knows the bytes it came from; file names of different shape are different, so an artifact suffix that imitates a preserved or temporary name is not covered.
- Directories, permissions, signal handlers and disks that lie about fsync. The ramdb and Arrow encodings are ideal codecs; ramdb narrows ints.
- Evidence packs' rendering, verdict and tally; the Markdown and JSON writers.
- URLs are split records given by a splitter function; the text of a Link header is not parsed; DNS, TLS, peer checks, byte caps, response schemas, auth headers and secrets are an arbitrary refusal of a request.
- In book documents, text-valued keys hold text, list-valued keys hold lists, names are text, `dict()` is given mappings, and a timeout or byte cap given as text is an integer's. The dataset name is accepted unread. Numbers in documents are ints.
- RecordsToFrame: takes the conversion to a declared type as an arbitrary function that may refuse, because that conversion is pandas.
- Case mapping is ASCII in type names. Lone surrogates, which cannot be URL-encoded, are not characters here.
- RegenerationPreserves: takes the coercers as arbitrary functions, because both drivers look them up in one registry; the emitted functions' own code is modelled, not parsed from its text, and which characters beyond ASCII are printable is arbitrary.
- The string-width fold of type names in the schema judge is an arbitrary function.
- Floating-point rounding in aggregates; values are reals or text, and the scaled sum starts from already rounded units.
- Sockets, health and metrics servers, the command line and configuration defaults.
