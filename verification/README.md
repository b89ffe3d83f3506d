# Norbital verification

Dafny models of the parts of Norbital whose correctness no finite set of tests settles, with
proofs of what those parts promise: the job queue and the replicas that pull from it, the
compiler from JSON shapes to SQL conditions, the two-lane admission envelope, the migration
planner with its tokenizer and quoting, the lineage of sealed versions, exact decimals,
SHA-256, cycles and business time, CSV text, and the stitching of transcripts.

`dafny verify dfyconfig.toml` checks everything.

## How it is laid out

| file | what it models |
|---|---|
| `JobQueue.dfy` | the job table: each statement a function on the table, the class `Queue` that runs them |
| `ConvertService.dfy` | replicas over the queue: a state machine over single statements and single synchronous pieces, and the class `Server` |
| `Shapes.dfy`, `ShapeRefusals.dfy`, `ShapeAliases.dfy`, `ShapeDifferences.dfy` | shapes, codecs, SQL conditions under three-valued logic, the compiler, and where compiler and codec agree |
| `Envelope.dfy` | permits, two lanes, waiters, the idle latch and the drain, and the class `Gate` |
| `Migrations.dfy`, `MigrationLedgers.dfy` | the planner, and what every accepted ledger stands for |
| `Texts.dfy`, `SqlTokens.dfy`, `SqlQuoting.dfy` | the SQL tokenizer; quoted literals and dollar blocks read back |
| `Versions.dfy` | sealing, shortening and voiding over whole histories |
| `Decimals.dfy`, `DecimalText.dfy` | decimals as coefficient and scale, against the real numbers they stand for |
| `Words.dfy`, `Sha256.dfy`, `Primes.dfy`, `Sha256Loops.dfy` | JavaScript's 32-bit operators; SHA-256 against FIPS 180-4; its table of primes |
| `Dates.dfy`, `Cycles.dfy` | the Gregorian calendar and its day numbers; the four cycle rules |
| `WorkingTime.dfy`, `BusinessHours.dfy` | working time counted millisecond by millisecond; the search for a deadline |
| `Csv.dfy` | the CSV reader's loop and the printer it inverts |
| `Windows.dfy`, `Merging.dfy`, `Speakers.dfy`, `Transcripts.dfy` | windows over a recording, the join of two chunks, labels, and the whole chunk loop |
| `Wrappers.dfy`, `Arithmetic.dfy` | result types; division |

## What the proofs found

Where the code does not do what its comment or its counterpart says, the model keeps the code
and a lemma says exactly when the two agree.

- A relation to one of several tables is checked under the member `collection`, but its codec
  reads `model` (`ShapeDifferences.RefsAgreeWhen`, `RefsDiffer`).
- A stored file whose `size` is null passes the condition and is refused by the codec
  (`ShapeDifferences.FilesAgreeWhen`, `NullSizeIsLetBy`).
- The two patterns of an email address agree only on characters that both sides take for white
  space or neither does: JavaScript's `\s` holds U+FEFF (`ShapeDifferences.EmailsAgreeWhen`,
  `EmailListsAgreeWhen`, `EmailIsLetBy`).
- An object of no fields, a bare JSON value, an optional arm of a union, and a tagged union
  whose tag is not a string or is also declared as a field, each have their own exact condition
  (`EmptyObjectsAgreeWhen`, `AnythingAgreesWhen`, `UnionsAgreeWhen`, `TaggedArmsAgreeWhen`).
- A decimal of negative scale, which `div` can make, does not read back from its
  text (`DecimalText.ReadsBackWhenScaled`).
- A CSV table with an empty row, or whose last row is one empty cell, does not read back
  (`Csv.PrintedReadsBackWhen`).
- A transcript overlap within the edge tolerance can splice away an utterance that was over
  before it (`Merging.EarlierIsKeptWhen`, `Merging.ShortOverlapTakesMore`), and one that starts
  after it (`Merging.LaterIsKeptWhen`, `Merging.ShortOverlapLosesLater`); with no overlap at all,
  an utterance of no length at the cut is lost. The configured overlap is not checked against
  that tolerance.

## Model

| member | source | states |
|---|---|---|
| `JobQueue.Queue.Submit` | services/convert/src/queue.ts:78-90 | a new id adds one queued row with no attempts, no worker and no lease; a known id adds nothing; every other row stays as it was |
| `JobQueue.Queue.Claim` | services/convert/src/queue.ts:61-65 | takes a queued row no other queued row is ahead of, for this worker until the lease ends; answers none exactly when nothing is queued |
| `JobQueue.Queue.Finish` | services/convert/src/queue.ts:66-68 | the one row changed is the one asked for, and only when it is recorded to this worker: then it is settled as the outcome says, without worker or lease, and is never held by the worker afterwards |
| `JobQueue.Queue.Renew` | services/convert/src/queue.ts:69 | every row this worker holds gets the new lease and keeps all else, so none of them is lapsed; no other row changes |
| `JobQueue.Queue.Recover` | services/convert/src/queue.ts:70-73 | every lapsed row is queued again, or failed when its attempts are spent, without worker or lease; no other row changes and none is lapsed afterwards |
| `JobQueue.Queue.Purge` | services/convert/src/queue.ts:74 | only settled rows last changed before the date go, and their ids are answered |
| `JobQueue.NextExists` | services/convert/src/queue.ts:62-65 | the claim's order has a least row whenever a row is queued |
| `JobQueue.ClaimGrowsOneLane` | services/convert/src/queue.ts:62-65 | a claim adds one running job to the lane of the row it takes and leaves every other lane as it was |
| `JobQueue.ClaimKeepsBalance` | services/convert/src/queue.ts:62-65 | one claim keeps every lane within one running job of each lane still waiting |
| `JobQueue.ClaimsStayFair` | services/convert/src/queue.ts:62-65 | in any run of claims no lane runs more than one job more than a lane with a row still queued |
| `JobQueue.IdleIsBalanced` | services/convert/src/queue.ts:62-65 | a table with nothing running is a fair place to start |
| `JobQueue.ClaimsTakeTheOldest` | services/convert/src/queue.ts:62-65 | in any run of claims, rows of one lane and priority are taken in the order of their creation |
| `ConvertService.RunsKeepInvariant` | services/convert/src/queue.ts:51-76 | over every interleaving of submit, claim, report, renew, recover, purge, join and crash: running exactly when worker and lease are set, attempts within their limits, counters right, and every row recorded to a live replica in flight there under a lease no older than its last beat |
| `ConvertService.CapacityIsNeverExceeded` | services/convert/src/server.ts:218-272 | on every live replica the counter is the conversions, the slots not yet given back and the previews, never exceeds the concurrency, and rows recorded to the replica never exceed it |
| `ConvertService.LeaseCountsFromLastTouch` | services/convert/src/queue.ts:61-73 | a running row's lease is the last claim or renewal of its own worker plus the lease time |
| `ConvertService.RowIsTakenOnlyAfterItsLease` | services/convert/src/queue.ts:66-73 | a running row leaves its worker only by that worker's report, or by a recover strictly more than a lease after its last claim or renewal |
| `ConvertService.StaleReportChangesNothing` | services/convert/src/queue.ts:101-116 | a report changes the table exactly when the row is recorded to the reporting worker |
| `ConvertService.TimelyRunsAreExclusive` | services/convert/src/server.ts:281-296 | while live replicas renew within the lease, every conversion in flight is of a row recorded there, and the only one of it |
| `ConvertService.NoJobRunsTwice` | services/convert/src/server.ts:281-296 | while live replicas renew within the lease, no job has two live replicas converting it |
| `ConvertService.JobsAreConserved` | services/convert/src/queue.ts:51-76 | jobs ever submitted are the queued, running, settled and purged ones |
| `ConvertService.SettledRowsStay` | services/convert/src/queue.ts:66-74 | a settled row never changes until it is purged |
| `ConvertService.WorkLeftFalls` | services/convert/src/queue.ts:61-73 | a natural measure of the work left falls with every claim, every report of a held row and every recover that frees one |
| `ConvertService.AttemptsCountClaims` | services/convert/src/queue.ts:61-65 | a row's attempts are the claims of it, so no job is claimed more often than the limit |
| `ConvertService.RunsConcatenate` | services/convert/src/server.ts:262-268 | a run and a run from where it ended are one run |
| `ConvertService.Server.Pump` | services/convert/src/server.ts:225-272 | the pump performs exactly a run of claim events, until there is no room, it is stopping, or nothing is queued |
| `ConvertService.Server.Leave` | services/convert/src/server.ts:245-268 | the end of a conversion is exactly its report and its slot given back |
| `ConvertService.Server.ConversionEnds` | services/convert/src/server.ts:245-268 | the end of a conversion followed by the pump is one run of the machine |
| `ConvertService.Server.Preview` | services/convert/src/server.ts:469-488 | a preview is admitted exactly when the machine allows one |
| `ConvertService.Server.PreviewEnd` | services/convert/src/server.ts:469-488 | the end of a preview, however it ends, and the pump after it are one run of the machine |
| `ConvertService.Server.LeaseRound` | services/convert/src/server.ts:281-296 | a lease round is exactly the machine's run of renew, recover and purge, and none of the replica's own rows is freed by it |
| `ShapeRefusals.ViolationIsRefusal` | packages/store/src/migration-generate.ts:48-202 | for every shape of the fragment, every value, SQL NULL and every scope: the compiled condition is never unknown, never fails, and is true exactly when the codec refuses the value; an email text is in the fragment where the database's white space is JavaScript's |
| `ShapeRefusals.BodyIsRefusal` | packages/store/src/migration-generate.ts:52-200 | the part of a condition under its null guard never fails, and decides every value that is not null |
| `ShapeRefusals.ObjectIsRefusal` | packages/store/src/migration-generate.ts:99-116 | the condition of an object refuses just what the object's codec does, fields, defaults and undeclared members included |
| `ShapeRefusals.ListIsRefusal` | packages/store/src/migration-generate.ts:97-98 | the condition of a list refuses just the lists of a wrong length or with a wrong item |
| `ShapeRefusals.NullNeedsOptional` | packages/std/src/kind.ts:417-428 | in the fragment only an optional shape's codec takes null |
| `ShapeAliases.NoAliasIsCaptured` | packages/store/src/migration-generate.ts:48-57 | no generated row alias captures one the expression already uses, at any depth, for every shape |
| `ShapeDifferences.EmptyObjectsAgreeWhen` | packages/std/src/kind.ts:284-285 | when an object of no fields is refused by both or by neither |
| `ShapeDifferences.EmailsAgreeWhen` | packages/store/src/migration-generate.ts:58-60 | whatever characters the database takes for white space, an email text is decided alike unless just one of the two patterns takes it |
| `ShapeDifferences.EmailListsAgreeWhen` | packages/store/src/migration-generate.ts:56-60 | a list of them is decided alike unless just one side takes every item |
| `ShapeDifferences.EmailIsLetBy` | packages/std/src/kind.ts:166 | an address that holds U+FEFF is stored and then refused, where the database does not take U+FEFF for white space |
| `ShapeDifferences.AnythingAgreesWhen` | packages/store/src/migration-generate.ts:119-120 | when a bare JSON value is |
| `ShapeDifferences.UnionsAgreeWhen` | packages/store/src/migration-generate.ts:121-125 | when a union with optional arms is |
| `ShapeDifferences.TaggedArmsAgreeWhen` | packages/store/src/migration-generate.ts:126-133 | for all arms, tagged arms disagree only on a tag that is no string but prints as the tag of an arm its object fits, and on an object whose arms all declare a field under the tag's own name that refuses the tag |
| `ShapeDifferences.FilesAgreeWhen` | packages/store/src/migration-generate.ts:161-176 | stored files disagree only on a size that is null |
| `ShapeDifferences.NullSizeIsLetBy` | packages/store/src/migration-generate.ts:161-176 | such a file, let by and refused |
| `ShapeDifferences.RefsAgreeWhen` | packages/store/src/migration-generate.ts:138-148 | relations to several tables agree only on values that name a table under both members or neither |
| `ShapeDifferences.RefsDiffer` | packages/store/src/migration-generate.ts:138-148 | a relation under the codec's own member is found in violation, and one its codec refuses is let by |
| `Envelope.RunsKeep` | packages/bolt-server/src/envelope.ts:16-58 | after every step of every run: free permits and granted waiters make up the capacity, no live waiter is queued beside a free permit, the latch is open exactly when nothing is granted, and each ended grant gave its permit back once |
| `Envelope.NextKeeps` | packages/bolt-server/src/envelope.ts:16-38 | `next` restores all of that from any state its callers leave |
| `Envelope.GrantsFollowOffers` | packages/bolt-server/src/envelope.ts:39-58 | within a lane, grants follow the order of offers; a waiter passed over had ended or been failed |
| `Envelope.BackgroundWaitsItsTurn` | packages/bolt-server/src/envelope.ts:16-33 | background work is granted only when no interactive waiter is left waiting |
| `Envelope.StepFollows` | packages/bolt-server/src/envelope.ts:16-69 | an answer once given stays, so a failed waiter is never granted |
| `Envelope.DrainedStaysDrained` | packages/bolt-server/src/envelope.ts:59-67 | once a drain has emptied the lanes no waiter is ever granted again |
| `Envelope.LatchOpensWithLastEnd` | packages/bolt-server/src/envelope.ts:34-37 | the latch opens exactly when the last running work ends |
| `Envelope.DrainEmptiesTheLane` | packages/bolt-server/src/envelope.ts:62-67 | draining a lane empties it and grants nothing |
| `Envelope.DrainFailsTheLane` | packages/bolt-server/src/envelope.ts:62-67 | each live waiter of a drained lane is failed |
| `Envelope.Gate.RunNext` | packages/bolt-server/src/envelope.ts:16-38 | the loop over permits and lanes computes the machine's `next` |
| `Envelope.Gate.Acquire` | packages/bolt-server/src/envelope.ts:39-50 | admission is the machine's admission, refused once the envelope is draining |
| `Envelope.Gate.Leave` | packages/bolt-server/src/envelope.ts:52-58 | the end of a waiter, granted or cancelled, is the machine's |
| `Envelope.Gate.Drain` | packages/bolt-server/src/envelope.ts:59-67 | the drain's loops are the machine's drain of both lanes |
| `Migrations.OneOrder` | packages/store/src/migrate.ts:444-456 | only one ordering of distinctly numbered entries ascends, so the order a database answers in does not matter |
| `Migrations.CheckedIsCoherent` | packages/store/src/migrate.ts:702-772 | sources that pass every check are numbered without gaps, and each baseline is bound to an exact prefix of them |
| `Migrations.OrderFiles` | packages/store/src/migrate.ts:444-456 | the ordering loop accepts exactly the files numbered from one without gaps |
| `Migrations.ExamineReceipts` | packages/store/src/migrate.ts:733-768 | the receipts' loop answers the first refusal in order, else every baseline |
| `Migrations.MigrationHistory` | packages/store/src/migrate.ts:702-817 | the whole planner, check by check in order, with the refusal of the first that fails |
| `MigrationLedgers.AcceptedStands` | packages/store/src/migrate.ts:773-797 | an accepted ledger is, entry for entry, one baseline at most and then the files from its cutoff, and no others |
| `MigrationLedgers.StandingIsAccepted` | packages/store/src/migrate.ts:773-816 | every such ledger, in any order, is accepted, and the plan depends on where it stands alone |
| `MigrationLedgers.AcceptedWhen` | packages/store/src/migrate.ts:773-797 | a ledger is accepted exactly when it stands for such a prefix |
| `MigrationLedgers.ReplanIsTheRest` | packages/store/src/migrate.ts:797-833 | after any part of a plan has run, planning again answers exactly the rest, with the same strategy |
| `MigrationLedgers.PlanCompletesARoute` | packages/store/src/migrate.ts:797-816 | what ran and what is pending are one whole route: no file twice, none after the cutoff skipped |
| `MigrationLedgers.BaselineIsItsPrefix` | packages/store/src/migrate.ts:666-696 | a baseline whose receipt was issued over real replays leaves the schema of the files it replaces |
| `MigrationLedgers.EveryRouteReachesTheSchema` | packages/store/src/migrate.ts:666-833 | with receipts issued over real replays and no colliding digest, every accepted ledger's plan arrives at the schema of the full chain |
| `MigrationLedgers.IssuedReceiptsAreAccepted` | packages/store/src/migrate.ts:666-768 | a receipt issued for an exact prefix is accepted beside it, unless its name is taken or the lock disputes its proof |
| `SqlTokens.ScanGoesOn` | packages/store/src/migrate.ts:169-238 | every turn of the tokenizer moves on, whatever the text |
| `SqlTokens.TokensLieInOrder` | packages/store/src/migrate.ts:167-240 | on every text, tokens lie at strictly increasing offsets inside it, share no character, and are the text at their offsets |
| `SqlTokens.Tokenize` | packages/store/src/migrate.ts:167-240 | the loop ends and reads exactly those tokens |
| `SqlTokens.SkipComment` | packages/store/src/migrate.ts:182-194 | the comment loop stops at the first place where as many comments have closed as have opened, or at the end of the text |
| `SqlTokens.CommentCloses` | packages/store/src/migrate.ts:182-194 | the end of a nested comment is where its nesting, counted from the opening, is first nothing, or else the end of the text |
| `SqlTokens.SkipQuoted` | packages/store/src/migrate.ts:207-220 | the quote loop stops at the closing quote, past doubled and escaped ones |
| `SqlQuoting.DoublingIsUndone` | packages/store/src/migrate.ts:271 | un-doubling the quotes of a doubled text gives the text |
| `SqlQuoting.QuotedIsOneLiteral` | packages/store/src/migrate.ts:271 | every quoted text is one literal token that un-doubles to the text |
| `SqlQuoting.QuotedReadsBack` | packages/store/src/migrate.ts:205-227 | and so it is wherever it stands, if no quote follows it and no `E` before it gives its backslashes a meaning |
| `SqlQuoting.ChooseDelimiter` | packages/store/src/migration-generate.ts:40-45 | the delimiter loop ends, with the first longer form the body does not hold |
| `SqlQuoting.NoEarlierDelimiter` | packages/store/src/migrate.ts:195-203 | no copy of the chosen delimiter starts before the closing one, even across its edge |
| `SqlQuoting.BlockReadsBack` | packages/store/src/migrate.ts:276-289 | a generated block, wherever it stands, is read as `do`, one body token holding the whole of its text, and a semicolon |
| `Versions.OverlapIsASharedDay` | packages/std/src/date.ts:69-70 | two periods overlap exactly when they share a day |
| `Versions.CheckShortens` | packages/std/src/versioned.ts:89-109 | the loop over an update's fields admits exactly updates that only end the period earlier |
| `Versions.OtherAfterSeal` | packages/std/src/versioned.ts:47-83 | another live version is shortened at most, stays a valid period, and shares no day with the draft just sealed |
| `Versions.SealKeepsDisjoint` | packages/std/src/versioned.ts:47-83 | sealing over disjoint live versions leaves them valid and disjoint |
| `Versions.SealRefusedWhen` | packages/std/src/versioned.ts:52-58 | sealing is refused exactly when the draft is sealed or a live version starts on its first day |
| `Versions.SealOnlyShortens` | packages/std/src/versioned.ts:65-70 | the write a seal makes to the version before is one `onlyShortens` admits |
| `Versions.UpdateKeeps` | packages/std/src/versioned.ts:85-129 | an update admitted by both checks keeps the live versions disjoint |
| `Versions.HistoryStaysDisjoint` | packages/std/src/versioned.ts:47-129 | over any history of drafts, seals and admitted updates the live versions stay disjoint |
| `Versions.HistoryOnlyEvolves` | packages/std/src/versioned.ts:85-129 | over any such history a sealed version's start stays, its end only moves earlier, and a void and its reason never change |
| `Decimals.DirectedModesMean` | packages/std/src/decimal.ts:26-34 | what `down`, `up`, `floor` and `ceil` mean of a real number |
| `Decimals.HalfUpMeans` | packages/std/src/decimal.ts:35-36 | half up is the nearest whole number, ties away from zero |
| `Decimals.HalfEvenMeans` | packages/std/src/decimal.ts:37-39 | half even is the nearest whole number, ties to even |
| `Decimals.DivRoundIsRounded` | packages/std/src/decimal.ts:18-40 | integer division with remainder is the exact ratio rounded as the mode says, for every sign and tie |
| `Decimals.DivIsRounded` | packages/std/src/decimal.ts:117-130 | `div` is the exact quotient rounded to the scale, for every coefficient, scale and sign |
| `Decimals.RoundIsRounded` | packages/std/src/decimal.ts:131-136 | `round` is the value rounded to the scale |
| `Decimals.AnswersDependOnNumbers` | packages/std/src/decimal.ts:117-136 | `div` and `round` depend on the numbers, not on how many zeros they are written with |
| `Decimals.RoundIsMonotone` | packages/std/src/decimal.ts:131-136 | rounding keeps order in all six modes |
| `Decimals.RoundIsIdempotent` | packages/std/src/decimal.ts:131-136 | rounding a rounded value again, in any mode, changes nothing |
| `Decimals.PlusIsExact` | packages/std/src/decimal.ts:96-108 | addition is exact |
| `Decimals.TimesIsExact` | packages/std/src/decimal.ts:113-116 | multiplication is exact |
| `Decimals.CmpIsOrder` | packages/std/src/decimal.ts:157-160 | comparison is the order of the numbers, whatever the scales |
| `DecimalText.ReadsBackWhenScaled` | packages/std/src/decimal.ts:176-181 | a written decimal reads back with the same coefficient and scale exactly when its scale is not negative |
| `Words.OperatorsAreCongruent` | packages/std/src/hash.ts:55-74 | JavaScript's bitwise operators answer the words' operators modulo 2^32, whatever the signs of their operands |
| `Words.RotrIsRotation` | packages/std/src/hash.ts:28 | the two shifts and the `or` rotate the word |
| `Words.WordIsBigEndian` | packages/std/src/hash.ts:20-21 | four bytes shifted into place are the big-endian word they spell |
| `Sha256.PaddingIsLeast` | packages/std/src/hash.ts:11-13 | the zeros are the fewest that leave eight bytes to the end of a block (section 5.1.1 of FIPS 180-4) |
| `Sha256.ConstantsAreRoots` | packages/std/src/hash.ts:30-44 | the constants are the first 32 bits of the fractions of the roots of the first primes (sections 4.2.2 and 5.3.3 of FIPS 180-4) |
| `Primes.TableIsTheFirstPrimes` | packages/std/src/hash.ts:30-44 | those primes are the first 64: ascending, each prime, and none left out |
| `Sha256.LengthHalves` | packages/std/src/hash.ts:16-17 | the two written halves are the length in bits as eight bytes, for every length |
| `Sha256.TailOf` | packages/std/src/hash.ts:9-17 | the built tail is the rest of the padded message |
| `Sha256.Blocks` | packages/std/src/hash.ts:8-19 | the blocks read in place and then from the tail are exactly the blocks of the padded message, in order |
| `Sha256Loops.Schedule` | packages/std/src/hash.ts:47-56 | the reused buffer holds the message schedule (section 6.2.2 of FIPS 180-4) |
| `Sha256Loops.RunRound` | packages/std/src/hash.ts:65-79 | one turn of the loop, on signed and unsigned values alike, is one round modulo 2^32 |
| `Sha256Loops.RunRounds` | packages/std/src/hash.ts:65-79 | the 64 turns are the 64 rounds |
| `Sha256Loops.Compress` | packages/std/src/hash.ts:46-88 | a block changes the hash as the standard says |
| `Sha256Loops.Scalar` | packages/std/src/hash.ts:41-90 | for every byte string the digest is the standard's |
| `Dates.NumberIsOrder` | packages/std/src/date.ts:55-56 | dates come in the order of their day numbers, and a number is one date's |
| `Dates.NextNumber` | packages/std/src/date.ts:19-26 | the day after, over month ends, leap days and years, has the next number |
| `Dates.AddDays` | packages/std/src/date.ts:93 | the day so many days on has the number so many larger |
| `Dates.AddDaysAdds` | packages/std/src/date.ts:93 | going on twice is going on by the sum |
| `Dates.EpochIsThursday` | packages/std/src/calendar.ts:30-32 | the first day of 1970 has its number, and its weekday |
| `Cycles.MonthsDivide` | packages/std/src/calendar.ts:55-62 | monthly cycles divide the calendar |
| `Cycles.SemiMonthsDivide` | packages/std/src/calendar.ts:63-72 | semi-monthly cycles do |
| `Cycles.WeeksDivide` | packages/std/src/calendar.ts:73-76 | weekly cycles do |
| `Cycles.EveryDivides` | packages/std/src/calendar.ts:77-86 | cycles of so many days from an anchor do, on both sides of it |
| `Cycles.CyclesDivideTheCalendar` | packages/std/src/calendar.ts:52-88 | for every rule, a day is in a cycle exactly when that cycle is its own |
| `Cycles.NextCycle` | packages/std/src/calendar.ts:94-98 | the cycle of the day after a cycle's end opens on that day |
| `Cycles.MeetingIsASharedDay` | packages/std/src/calendar.ts:90-98 | a cycle is listed exactly when it shares a day with the period |
| `Cycles.CyclesOf` | packages/std/src/calendar.ts:91-101 | the loop ends, and lists consecutive cycles without gaps, exactly those that meet the period; open periods and bad rules are refused |
| `WorkingTime.WorkedInADay` | packages/std/src/calendar.ts:130-137 | inside a day, the working milliseconds of a stretch are its overlap with the day's hours |
| `WorkingTime.OneDeadline` | packages/std/src/calendar.ts:114-117 | a deadline is the only one for its start and amount |
| `WorkingTime.DeadlinesAdd` | packages/std/src/calendar.ts:118-140 | adding one amount and then a second that is not nothing lands where adding both does |
| `BusinessHours.SearchDay` | packages/std/src/calendar.ts:129-138 | one day of the search finds the deadline or places that day's hours |
| `BusinessHours.AddBusinessHours` | packages/std/src/calendar.ts:118-140 | just the amount of working time lies between the start and the answer, which is the first such instant; it is found exactly when the ten years searched hold enough |
| `Csv.CsvRows` | packages/std/src/csv.ts:2-31 | the character loop reads the rows the state machine does |
| `Csv.LinesReadBack` | packages/std/src/csv.ts:1-31 | rows that each end with LF, CR or CRLF read back, and a trailing line end adds no row |
| `Csv.PrintedReadsAs` | packages/std/src/csv.ts:69-82 | printed rows read back, less a last row of one empty cell |
| `Csv.RunMakesNoEmptyRow` | packages/std/src/csv.ts:22-29 | reading never makes a row without cells |
| `Csv.PrintedReadsBackWhen` | packages/std/src/csv.ts:69-82 | printed CSV reads back exactly when no row is empty and the last is not one empty cell (section 2 of RFC 4180) |
| `Windows.WindowsOf` | services/convert/src/transcribe.ts:28-37 | the loop ends with whole chunks from zero, each overlapping the next by just the overlap, up to the duration; a chunk no longer than its overlap is refused |
| `Windows.EveryMomentIsHeard` | services/convert/src/transcribe.ts:28-37 | every moment of the recording is in a window |
| `Windows.WindowsGoOn` | services/convert/src/transcribe.ts:28-37 | a later window starts no earlier than the overlap before an earlier one ends |
| `Merging.FindRun` | services/convert/src/transcribe.ts:53-63 | a splice goes on after the longest repeated run of last words, at its first place; none is found only when there is none |
| `Merging.Splice` | services/convert/src/transcribe.ts:49-65 | a splice is all of the first hearing and the second from there, or from the overlap's share of its words |
| `Merging.JoinOn` | services/convert/src/transcribe.ts:100-133 | a join is the spliced one exactly when one utterance runs through the overlap, else the one cut at the boundary nearest the middle |
| `Merging.NothingOutsideIsLost` | services/convert/src/transcribe.ts:68-133 | over an overlap longer than the edge, no earlier segment before it and no new one after it is lost or reordered, but a first new one that repeats the last kept |
| `Merging.EarlierIsKeptWhen` | services/convert/src/transcribe.ts:108-124 | over any overlap, none included, exactly when earlier segments are kept |
| `Merging.LaterIsKeptWhen` | services/convert/src/transcribe.ts:108-133 | over any overlap, exactly when new segments after it are kept |
| `Merging.ShortOverlapTakesMore` | services/convert/src/transcribe.ts:111-124 | within the edge, every join loses an utterance that was over before the overlap, whatever is said |
| `Merging.ShortOverlapLosesLater` | services/convert/src/transcribe.ts:108-133 | within the edge, every join loses an utterance that starts after the overlap, whatever is said |
| `Speakers.CountVotes` | services/convert/src/transcribe.ts:79-86 | the vote loops count the time each speaker shares with a label |
| `Speakers.NextLabel` | services/convert/src/transcribe.ts:98 | the search over S1, S2 and on ends, at the first number no one has |
| `Speakers.MapLabels` | services/convert/src/transcribe.ts:80-101 | heard labels go where they share most time, every unheard label goes where no other label goes, and a known one keeps itself unless a heard one took it |
| `Transcripts.Transcribe` | services/convert/src/transcribe.ts:307-336 | the chunk loop makes a run of joins, each under a mapping of its chunk's labels, and its speakers' labels stay distinct |
| `Transcripts.SpeechOutsideOverlapsComesThrough` | services/convert/src/transcribe.ts:307-336 | over a whole run, speech a chunk heard outside its overlaps is in the transcript at the end, unless its own join dropped it as a repeat |

## Left out

- Each prepared statement is one atomic step on the table that succeeds, with one retry limit for all replicas; SQLite's locking, its file and its failures are not modelled.
- The clock of the queue is one monotone clock that all replicas read; a clock that goes back is not modelled.
- Worker names and job ids are drawn at random and taken never to repeat.
- A claim's order leaves ties open, so the queue may answer any of the rows that tie.
- Queue limits (`maxQueued`), routes, watchers, spooled files and the conversions themselves are not modelled; nothing is said of a spooled file after a lapsed attempt.
- The envelope's admission, its `next`, each release and each drained waiter are atomic steps; Effect's scheduler, semaphore, queues and deferreds appear only by their stated behaviour, and the wait of the drain by its latch alone.
- Shapes: dates, instants, times, decimals, ids and periods rest on patterns and casts of the database and are not modelled. The two patterns of an email address are, and which characters the database takes for white space is a parameter.
- Text lengths are counted in characters; JavaScript counts UTF-16 units and the database code points.
- Numbers in shapes are real numbers, so the range and rounding of doubles are not modelled.
- Members of an object are a finite map, so duplicate names in JSON text are not modelled.
- Migrations: the rules on a file's SQL (`checkFile`, `checkSquashSources`) are parameters that answer yes or no of a text; the digest, canonical JSON and the locale's order of names are parameters too.
- `Migrations.MigrationHistory` answers the code of a refusal and not its message.
- Two lists of entries are compared directly where the program compares their canonical JSON, which is the same for such lists.
- `MigrationLedgers.EveryRouteReachesTheSchema`: a schema is taken to be the set of its physical definition lines, running a file is a function on such sets, and the digest is taken to be free of collisions.
- `migrationStatus`, `executable` as a whole file with several checks, and the DDL planner are not modelled.
- Versions: days are numbers, a field's value is one of a few kinds compared as a whole, and the lines of a version are not modelled.
- Decimals: `fromNumber`, currencies and `sum` would add easy members.
- SHA-256 of text first encodes it as UTF-8, which is not part of this model, nor are the native digest and hexadecimal text.
- Calendar years are unbounded; the program refuses or misprints days outside years 0000 to 9999.
- `BusinessHours.AddBusinessHours`: the zone keeps one offset, the amount comes in whole milliseconds, and hours already lie in their day; zones that change offset rest on the platform's time zone data.
- CSV cells are texts; how numbers and booleans are printed, the guess of a delimiter and the decoding of bytes are left out.
- Transcripts: times are real numbers; splitting a text into words and normalising a word are parameters, and two texts' words are compared as lists where the program compares them joined by spaces.
- `Transcripts.Transcribe` takes each window's heard segments as given, already placed on the recording's clock; the model's answers, retries, prompts, placing and the final sort by start are left out.
