# Polymorph: verified models of the core

Polymorph moves sealed records between connectors. This project models the parts of it where a small
mistake costs the most, and proves what they promise over every input, every run or every
interleaving:

- **the delivery ledger** (`Ledger`, `LedgerAnswers`, `LedgerClaims`, `LedgerRuns`,
  `LedgerMigration`, on top of `Clock`): eleven delivery states, fencing tokens, leases compared as ISO text, scalar and batch
  write boundaries, quarantine, rearming, the one-time conversion of older files. Each public call is
  one atomic step on a table; a run is any sequence of calls by any workers, each with its own clock
  reading, with reopening at any point;
- **the structural scanners** (`JsonScan`, `Zip`, `ZipArchives`, `Gzip`): one-pass automata that bound JSON and JSON5
  documents, ZIP directories and gzip streams before a parser sees them, each proved against a
  recursive or declarative definition of what it measures;
- **the audit log** (`Audit`): hash chaining, the usage counters its triggers keep, AUTOINCREMENT
  numbering, deletions behind its back, verification;
- **the path lock** (`PathLock`): the reference-counted registry of thread locks, over every
  interleaving;
- **the record wire format** (`Base64`, `Wire`): payload trees, the base64url size guard, memoised
  bytes;
- **the mapping benchmark** (`Benchmark`, `BenchmarkMeaning`, `Percentile`): counters that must balance, failure lists,
  the interpolated percentile.

The mutable objects are classes and the loops are methods with invariants. Each is proved equal to a
specification function, and the properties are lemmas about that function. `Outcomes` holds the
shared `Option` and `Result`, `Octets` the bytes.

Verify with `dafny verify dfyconfig.toml`.

## What the code does not do

Some properties one might expect do not hold of the code as it is. The members named show the failing
cases and say exactly when each property holds.

- A row older than the replay-fencing marker can be handed out again by a claim: a row that was in
  `WRITE_STARTED` or `BATCH_WRITE_STARTED` can be quarantined by its token, rearmed and recovered. No
  other old row can (`LedgerMigration.ReleasableRowsCanComeBack`, `LedgerMigration.OldRowsHandedOutIff`).
- Two verifying audit logs with one final hash need not be identical: `verify` decodes and re-encodes
  each event, so the spelling of its JSON is not covered, nor are signatures without a trusted key
  (`Audit.RespellingIsNotDetected`, `Audit.FinalHashPinsCanonicalLogs`).
- A signed v3 record that has a recipient key id but was built with the blank-recipient flag does not
  come back from the wire with that flag (`Wire.FlagIsLostOnTheWire`, `Wire.RecordRoundTrip`).
- A byte-order mark is JSON5 white space, but the JSON scanner counts it as a member when it stands in an
  empty container or behind a trailing comma, and nowhere else (`JsonScan.MarkInsideCounts`,
  `JsonScan.MeasuredExactlyWithoutMarks`).
- Verification does not notice deletions that only truncated an audit log, though every later append
  does, nor an unsigned last row that was rewritten consistently (`Audit.EditIsDetectedUnlessHarmless`,
  `Audit.TruncationVerifies`, `Audit.DeletionIsDetectedUnlessTruncation`, `Audit.DeletionStopsTheLog`).

## Model

| member | source | states |
|---|---|---|
| Clock.IsoRoundTrip | src/polymorph/ledger.py:313-322 | parsing the ISO text of any UTC instant, with or without a fraction, gives that instant back |
| Clock.IsoOrder | src/polymorph/ledger.py:579-593 | for all UTC instants the textual comparison of the stored ISO strings is the datetime comparison, including texts whose microseconds are omitted |
| Clock.MicrosOrder | src/polymorph/ledger.py:456-461 | the field-by-field order of datetimes is the order of their microseconds on one line, over the whole Gregorian calendar |
| Clock.PlusIsLater | src/polymorph/ledger.py:360-362 | a lease ends exactly its length in microseconds after it begins, across days, months and leap years, and fails exactly when that is past the last day of year 9999 |
| Clock.CalendarIsGregorian | src/polymorph/ledger.py:360-362 | the days counted before a year have the closed form of the Gregorian calendar, so its leap years are those of the clock |
| Ledger.DeliveryLedger.constructor | src/polymorph/ledger.py:104-261 | an opened ledger carries the marker and exactly the rows of the file; no row of a file that came without the marker is an ordinary claim or quarantine, and a file that came with it is untouched |
| Ledger.DeliveryLedger.ClaimMany | src/polymorph/ledger.py:341-540 | the loop with its rollback is exactly the `Claims` step of the protocol: all the claims, or an error and the old table |
| Ledger.DeliveryLedger.Transition | src/polymorph/ledger.py:542-595 | the guarded update changes the one row that matches content, state, token and expiry, and otherwise fails and changes nothing |
| Ledger.DeliveryLedger.TransitionMany | src/polymorph/ledger.py:597-674 | the row-by-row loop with rollback moves every row of the group at once or none |
| Ledger.DeliveryLedger.RearmForRetry | src/polymorph/ledger.py:843-965 | a rearm changes one row or nothing; it never takes an active claim or a committed row; it leaves a claim whose lease is running with the new token, the same attempt id and contract, and an ordinary one only if the row was quarantined |
| Ledger.DeliveryLedger.Execute | src/polymorph/ledger.py:676-841 | every public call of the mutable ledger has the effect and the reply of one step of the protocol |
| Ledger.DeliveryLedger.GetBatchAttempt | src/polymorph/ledger.py:1025-1041 | succeeds exactly for a valid id with at most ten thousand readable members, and then lists exactly the rows that carry the id, each once, by ascending record digest |
| LedgerClaims.ClaimFoldIsParallel | src/polymorph/ledger.py:365-534 | claiming records left to right is claiming all of them against the table the group found; a failure is that of the first record that fails alone |
| LedgerClaims.ClaimManyIsAllOrNone | src/polymorph/ledger.py:341-540 | a group within the batch limits fails exactly when one of its records would fail alone, and then the ledger is unchanged |
| LedgerClaims.ClaimFoldIgnoresOrder | src/polymorph/ledger.py:365-534 | any reordering of a successful group gives the same table and the reordered dispositions |
| LedgerClaims.ClaimManyIsOneByOneInAnyOrder | src/polymorph/ledger.py:333-540 | a successful group claim leaves the table and gives the answers of single claims made in any order at the same clock reading |
| LedgerAnswers.ClaimsRefusedIff | src/polymorph/ledger.py:411-440 | a group within the limits fails if and only if some record finds its identity used with another digest or plan, or a corrupt row; the error is the replay error exactly when the first such record differs in content, and nothing changes |
| LedgerAnswers.ClaimsAnswered | src/polymorph/ledger.py:365-534 | otherwise each record is answered by the row it finds: new, already committed only if committed, in progress while a lease runs, recovered with the new token only for an expired ordinary claim, ambiguous in every other case; every column of every row is accounted for |
| LedgerAnswers.ClaimsOutsideLimits | src/polymorph/ledger.py:349-362 | which error a claim outside the limits raises, and that no records are no claims |
| LedgerAnswers.SingleCalls | src/polymorph/ledger.py:676-821 | for each start and mark call: the content, state, token and lease it must find, the error otherwise, and the state, reason, attempt id and contract it leaves, every other column unchanged |
| LedgerAnswers.BatchCalls | src/polymorph/ledger.py:707-841 | the same for each call on a batch: all its rows change alike or none does |
| LedgerAnswers.RearmAnswered | src/polymorph/ledger.py:850-965 | exactly when a rearm is refused and with which error, and every column of the row it leaves |
| LedgerRuns.Step | src/polymorph/ledger.py:341-965 | every step explains every row: unchanged, inserted, taken over, moved by a matching call, or rearmed, and nothing else |
| LedgerRuns.AtMostTwoMovesPerAttempt | src/polymorph/ledger.py:676-841 | in every run each successful start or mark call takes its row a stage further, and without a rearm there are at most two of them for one identity |
| LedgerRuns.FencedForever | src/polymorph/ledger.py:453-532 | in every run a row once uncertain, replayed or committed stays in those states, its idempotency contract never changes, and a committed row never changes at all |
| LedgerRuns.FencedRowsAreNeverHandedOut | src/polymorph/ledger.py:453-532 | in every run no later claim returns a token for such a row |
| LedgerRuns.RearmBetweenCrossings | src/polymorph/ledger.py:676-725 | between any two write-boundary crossings for one identity there is a successful rearm of it |
| LedgerRuns.QuarantineBetweenOrdinaryCrossings | src/polymorph/ledger.py:793-841 | between two ordinary crossings for one identity there is a quarantine made with the first crossing's own token, and after it a rearm |
| LedgerRuns.OneRowPerToken | src/polymorph/ledger.py:367-403 | with fresh tokens, a token is in at most one row of any reachable table |
| LedgerRuns.TokenKeepsItsKey | src/polymorph/ledger.py:487-521 | a token never moves to another identity at any later time |
| LedgerRuns.ReplacedTokenIsGone | src/polymorph/ledger.py:487-521 | a token that was replaced is never in any row again |
| LedgerRuns.StaleTokenIsInert | src/polymorph/ledger.py:582-595 | every later call that presents a replaced token, alone or inside a group, fails and changes nothing |
| LedgerRuns.TokenCrossesOnce | src/polymorph/ledger.py:676-725 | a claim token crosses the write boundary at most once in a run, for at most one identity |
| LedgerRuns.RowsAreSound | src/polymorph/ledger.py:597-674 | in every run of a ledger created by this code, or opened with sound rows, batch states carry a valid attempt id, scalar write states carry none, and every row has a token and a readable expiry |
| LedgerRuns.ExpiryTestsAgree | src/polymorph/ledger.py:454-471 | on such rows the expiry test made in SQL and the one made in memory agree |
| LedgerRuns.StartNeedsLiveLease | src/polymorph/ledger.py:652-665 | in such a run a write can be started, alone or in a batch, only on readable claimed rows whose leases are running |
| LedgerRuns.LiveLeaseIsInProgress | src/polymorph/ledger.py:453-471 | in such a run, whenever a write could be started, a claim at that instant answers IN_PROGRESS without a token and changes nothing |
| LedgerRuns.LiveLeaseCannotBeRearmed | src/polymorph/ledger.py:891-901 | in such a run, whenever a write could be started, every rearm at that instant is refused |
| LedgerRuns.AttemptWasIssued | src/polymorph/ledger.py:707-725 | a row carries an attempt id only if an earlier batch start issued that id for that row |
| LedgerRuns.BatchAttemptIsBounded | src/polymorph/ledger.py:1025-1041 | the rows of an attempt id are always a subset of the one call that issued it, at most ten thousand and all readable, so the overflow error is unreachable |
| LedgerRuns.StartedBatchIsListedWhole | src/polymorph/ledger.py:707-725 | right after a batch was started, the rows that carry its attempt id are exactly those of the batch |
| LedgerRuns.AttemptIsKept | src/polymorph/ledger.py:566-566 | a row keeps its attempt id until the next ordinary write of its identity is started |
| LedgerMigration.ConversionIsConservative | src/polymorph/ledger.py:168-235 | the conversion adds and drops no row, sends each old state to its one fenced or batch state, changes nothing else, leaves no ordinary claim or quarantine, and never unfences a row |
| LedgerMigration.ConvertedFileOpensSoundIff | src/polymorph/ledger.py:187-228 | a converted file opens with sound rows if and only if its rows are readable and carry tokens and expiries of the written form; the conversion itself settles which states carry an attempt id |
| LedgerMigration.ReopeningChangesNothing | src/polymorph/ledger.py:158-168 | the conversion happens at most once: reopening at any point of any run leaves every row as it is |
| LedgerMigration.ConvertedRowsAreNeverHandedOut | src/polymorph/ledger.py:169-206 | an old claimed or quarantined row is never handed out in any later history |
| LedgerMigration.LockedRowsAreNeverHandedOut | src/polymorph/ledger.py:843-965 | a row that is settled, unreadable or written without a usable token is never handed out in any later history |
| LedgerMigration.ReleasableRowsCanComeBack | src/polymorph/ledger.py:207-228 | the counterexample: from every old row with an open write and a usable token there is a run that hands it out again, and one with fresh tokens if the tokens of the file are distinct and not exhausted |
| LedgerMigration.OldRowsHandedOutIff | src/polymorph/ledger.py:104-261 | an old row can be handed out in some later history if and only if its write is open and its token, attempt id and contract are usable |
| JsonScan.LimitsExceeded | src/polymorph/content.py:714-804 | the loop over index, depth, quote and comment flags computes the automaton's two flags |
| JsonScan.NestingExceeds | src/polymorph/content.py:806-815 | the nesting test is the automaton's depth flag under the largest member limit |
| JsonScan.ScanMeasuresDocument | src/polymorph/content.py:714-804 | for every JSON or JSON5 document and every way of writing it (blanks, comments, byte-order marks, escapes, trailing commas, a last comment without a line end), no flag is set exactly when depth and total members are within the limits; otherwise exactly one flag is set, and it tells the truth; a marked gap without an item counts as one member more |
| JsonScan.MeasuredExactlyWithoutMarks | src/polymorph/content.py:774-802 | the scan measures a document under all limits if and only if no empty container and no trailing comma has a byte-order mark in its gap |
| JsonScan.MarkInsideCounts | src/polymorph/content.py:774-802 | the counterexample: a byte-order mark in an empty array is flagged as a member, while marks beside an item and behind the root change nothing |
| JsonScan.JsonSpaceIsLegal | src/polymorph/content.py:774-777 | all the white space of JSON and JSON5 may stand in the gaps that the scan measures documents with |
| JsonScan.FlagsAreStable | src/polymorph/content.py:732-804 | a limit flagged on a prefix is flagged identically on every extension of it |
| JsonScan.FindCommentEnd | src/polymorph/content.py:834-836 | finds the first end of a block comment, and reports none exactly when there is none |
| JsonScan.StartsJsonLikeContainer | src/polymorph/content.py:817-840 | decides whether the first significant character opens a container |
| JsonScan.ScannersAgree | src/polymorph/content.py:806-840 | on every text the container test equals the nesting test with limit zero, across byte-order marks, blanks and terminated or unterminated comments |
| Zip.FindLastCandidate | src/polymorph/content.py:916-918 | finds the last end-record signature |
| Zip.SelectEndRecord | src/polymorph/content.py:916-932 | accepts a position exactly when it is the only one whose signature and comment length reach the end of the file and no signature follows it |
| Zip.DirectoryIsInFrontOfItsEnd | src/polymorph/content.py:934-1036 | an accepted directory ends exactly where its end records begin, ZIP64 or not, and starts at or behind its declared offset |
| Zip.ReadMetadata | src/polymorph/content.py:903-1036 | the metadata is that of the unambiguous end record; without one, or with inconsistent fields, there is none |
| ZipArchives.DirectoryOfEnd | src/polymorph/content.py:934-1036 | for every end record written field by field: the entries, size and offset written, or the refusal for more than one disk, a sentinel without a locator, disagreeing counts or a directory that does not fit |
| ZipArchives.DirectoryOfEnd64 | src/polymorph/content.py:950-1036 | the same for every ZIP64 record and locator, with the standard fields it overrides or must agree with |
| ZipArchives.ArchiveIsRead | src/polymorph/content.py:903-1036 | round trip: for every archive with an unambiguous end record the directory is found where it was written, with the count written |
| ZipArchives.Archive64IsRead | src/polymorph/content.py:950-1036 | the same round trip for every ZIP64 archive |
| ZipArchives.OnlySignatureIsTheEnd | src/polymorph/content.py:916-932 | an end record whose signature stands nowhere else in the file is unambiguous |
| Zip.CountOfRecords | src/polymorph/content.py:1050-1068 | a concatenation of n well-formed records is counted as n, or as the limit plus one with the stop flag |
| Zip.CountIsOfRecords | src/polymorph/content.py:1050-1068 | conversely every count returned is backed by that many well-formed records, and by nothing else when the count did not stop |
| ZipArchives.HeaderIsRecord | src/polymorph/content.py:1056-1060 | a central directory header written field by field, with any name, extra field and comment, is one record of exactly its length |
| ZipArchives.ArchiveIsCounted | src/polymorph/content.py:1038-1068 | the count over the directory of a written archive is the number of its headers, or stops right behind the limit |
| Zip.CountEntries | src/polymorph/content.py:1038-1068 | the streaming reader computes that count on the declared part of the file |
| Gzip.StripZeros | src/polymorph/content.py:1354-1354 | removes the longest run of leading zeros |
| Gzip.SkipPadding | src/polymorph/content.py:1351-1357 | skips all the padding across chunk borders, so that what remains does not begin with a zero, and loses no other byte |
| Gzip.Seek | src/polymorph/content.py:1348-1381 | in front of a member: all padding is skipped and no byte is lost; a file over the member budget is refused for what stands there, which is no padding |
| Gzip.Feed | src/polymorph/content.py:1383-1446 | one decompressor call extends the open session by exactly that call, or closes it into a member, or is refused; it makes progress, ends a member, or raises the risks the record justifies |
| Gzip.SegmentsAgree | src/polymorph/content.py:1347-1446 | there is one way to take a file apart: any lawful beginning is a prefix of any lawful decomposition, since what is offered to the decompressor is determined by the file |
| Gzip.NoRiskIfPasses | src/polymorph/content.py:1347-1475 | no record the loop can reach justifies a risk on a file that has a lawful decomposition within all limits |
| Gzip.DenseMeans | src/polymorph/content.py:1428-1432 | a member or file is too dense exactly when at least a mebibyte came out, and more than the ratio times what went in |
| Gzip.Inspect | src/polymorph/content.py:1337-1475 | for every decompressor that consumes a prefix and emits at most a chunk: the loop terminates; bytes read are member bytes plus padding plus pending; there is no risk if and only if the file is, byte for byte, finished sessions of that decompressor and zero padding within the member, size and ratio limits; each size risk is raised exactly when exceeded, and each malformed file has a failing call, a truncated or stuck session, no member, or foreign data behind the last one |
| Audit.VerifyIsExact | src/polymorph/audit.py:481-526 | verification accepts exactly the gapless, correctly linked and (with a trusted key) correctly signed chains, and returns their length |
| Audit.InsertKeepsIntact | src/polymorph/audit.py:243-257 | inserting behind the tail of an intact log never violates the UNIQUE hash and keeps rows, numbering and both counters consistent |
| Audit.AppendOnIntactLog | src/polymorph/audit.py:331-461 | on an intact log an append succeeds exactly when writing is allowed, the batch is within its limits and the quotas hold, so its own row, usage and UNIQUE checks never fail; it adds exactly the chained rows |
| Audit.AppendSucceedsIff | src/polymorph/audit.py:334-382 | on an intact log an append succeeds exactly within the literal batch limits and when the rows it would leave stay within both quotas |
| Audit.BatchIsItsHalves | src/polymorph/audit.py:376-436 | appending a batch a+b succeeds exactly when appending a and then b does, and leaves the same rows, numbers and counters |
| Audit.FinalHashPinsTheLog | src/polymorph/audit.py:481-510 | without collisions, two verifying logs with one final hash agree on length, numbers, hashes and decoded events |
| Audit.FinalHashPinsCanonicalLogs | src/polymorph/audit.py:492-502 | such a log equals one that only appends touched, signatures aside, if and only if its events are spelled canonically |
| Audit.RespellingIsNotDetected | src/polymorph/audit.py:492-502 | the counterexample: respelling an event's JSON leaves a different verifying log with the same final hash |
| Audit.CountMatchesTailOnlyWhenGapless | src/polymorph/audit.py:372-374 | if ascending numbers end at the number of rows, they are 1, 2, 3 and so on without a gap |
| Audit.TruncationVerifies | src/polymorph/audit.py:487-510 | the counterexample: a whole log without its last row still verifies |
| Audit.DeletionIsDetectedUnlessTruncation | src/polymorph/audit.py:481-526 | in every history of appends and deletions, verification returns the row count if and only if the rows are a prefix of the log as it was when it was last whole, and the count check of the next append passes for the same logs |
| Audit.AppendOnTamperedLog | src/polymorph/audit.py:364-426 | every non-empty append to a log with a missing row fails, by the usage check or by the numbering check |
| Audit.DeletionStopsTheLog | src/polymorph/audit.py:278-295 | in every history of appends, deletions and edits, once a deletion has removed a row every later non-empty append raises and leaves the log unchanged |
| Audit.CountersAreExact | src/polymorph/audit.py:243-295 | in every history of appends, deletions and edits the three triggers keep both counters equal to the number and the total size of the rows |
| Audit.EditIsDetectedUnlessHarmless | src/polymorph/audit.py:481-510 | verification accepts a whole log with one row edited if and only if the UNIQUE constraint refused the edit, or the row still says the same, or it is the last row and again a link behind its predecessor |
| Audit.AppendsKeepTheLogIntact | src/polymorph/audit.py:331-461 | in every history of appends the log stays intact, whoever writes |
| Audit.BuiltLogVerifies | src/polymorph/audit.py:481-526 | every log built by any series of appends verifies with its exact event count, and under a trusted key when every writer signed with it |
| Audit.AuditLog.Prepare | src/polymorph/audit.py:336-357 | the preparation loop accepts exactly the batches within the count, event and batch limits |
| Audit.AuditLog.InsertBatch | src/polymorph/audit.py:384-404 | the insertion loop stores the whole chain and returns the rows expected, or stops at a UNIQUE violation |
| Audit.AuditLog.AppendMany | src/polymorph/audit.py:331-461 | the transaction is exactly the append step: the new store and its records, or an error and the old store |
| Audit.AuditLog.Verify | src/polymorph/audit.py:481-526 | the loop returns the number of rows if the chain verifies and an integrity error otherwise |
| PathLock.DropUndoesTake | src/polymorph/filesystem.py:61-82 | dropping a reference gives back the registry from before taking it, if and only if no entry stood there without users |
| PathLock.InvStep | src/polymorph/filesystem.py:214-244 | every step of every thread keeps locks shared, counts exact and ownership consistent |
| PathLock.ThreadLocks.Perform | src/polymorph/filesystem.py:214-244 | the mutable registry performs every step of the protocol and keeps its invariant, and a thread that acquires its lock is the only one past the lock of its path |
| PathLock.MutualExclusion | src/polymorph/filesystem.py:195-244 | over every interleaving at most one thread per canonical path is past the lock |
| PathLock.OneLockPerPath | src/polymorph/filesystem.py:61-70 | two concurrent users share a lock object if and only if they use the same path |
| PathLock.CountIsExact | src/polymorph/filesystem.py:61-82 | the stored count is the number of threads between taking and dropping a reference, and a path is registered exactly while that number is not zero |
| PathLock.DropAlwaysFindsItsEntry | src/polymorph/filesystem.py:73-82 | the defensive early return of the release is never taken |
| Base64.DecodeEncode | src/polymorph/crypto.py:193-206 | decoding inverts encoding for every byte string |
| Base64.EncodesBigEndian | src/polymorph/crypto.py:193-194 | each group is written in the alphabet of RFC 4648 section 5 as the four sextets of its 24-bit number, with padding for missing bytes |
| Base64.GuardIsExact | src/polymorph/crypto.py:197-206 | the size guard refuses exactly the encodings of more than the allowed number of bytes |
| Wire.ContextRoundTrip | src/polymorph/crypto.py:132-168 | every valid context comes back from its wire form |
| Wire.ContextKeys | src/polymorph/crypto.py:62-81 | every part of a context stands under its own key, the optional ones only when they are there |
| Wire.FieldRoundTrip | src/polymorph/agents.py:183-207 | a valid sealed field comes back exactly when its ciphertext is within the limit, and is refused otherwise |
| Wire.FieldsRoundTrip | src/polymorph/agents.py:417-417 | a list of fields comes back, in order, exactly when every ciphertext is within the limit |
| Wire.AuthRoundTrip | src/polymorph/agents.py:149-171 | every valid source authentication comes back from its wire form |
| Wire.CheckRecord | src/polymorph/agents.py:222-264 | the constructor's loop accepts exactly the records with distinct targets, one shared context and a permitted version policy |
| Wire.FieldsSpeakForTheRecord | src/polymorph/agents.py:229-252 | whichever field of a valid record is asked, it names the same tenant, connectors, transfer, plan, schema, version, recipient and validity and the record's own id, and no two fields share a target |
| Wire.RecordRoundTrip | src/polymorph/agents.py:353-439 | decoding the wire form of a well-formed record gives that record if and only if it is within the limits and the receiver's policy admits it |
| Wire.DecodingAdmitsOnly | src/polymorph/agents.py:386-439 | whatever the payload, an accepted record is well-formed, within the limits, signed if v3, v2 only by permission and without authentication, and without a recipient key only by permission |
| Wire.FlagIsLostOnTheWire | src/polymorph/agents.py:427-436 | the counterexample: a concrete well-formed signed record with a recipient key id and the blank-recipient flag that no receiver decodes to itself |
| Wire.AuthenticationIsNotContent | src/polymorph/agents.py:298-328 | adding or removing the authentication of a v3 record changes neither its invariant, its digest nor the bytes to be signed |
| Wire.SigningIsSound | src/polymorph/agents.py:330-351 | a signed record is well-formed, keeps its digest, carries a signature over the bytes a verifier recomputes from it, and survives the wire |
| Wire.SigningNeedsMetadata | src/polymorph/crypto.py:98-130 | a record can be signed exactly when it is unsigned v3 and all its metadata is bounded and printable |
| Wire.DigestPinsContent | src/polymorph/agents.py:372-384 | with injective printing and hashing, two well-formed records have one digest if and only if they have the same id and the same sealed fields |
| Wire.SignedBytesPinContent | src/polymorph/agents.py:306-328 | the bytes that are signed agree if and only if id, fields, key id and algorithm do |
| Wire.WireBytesPinRecord | src/polymorph/agents.py:353-370 | the canonical wire bytes agree if and only if id, fields and authentication do |
| Wire.BlindTransportRecord.CanonicalWireBytes | src/polymorph/agents.py:359-370 | cached or not, the bytes equal recomputation |
| Wire.BlindTransportRecord.Digest | src/polymorph/agents.py:372-384 | cached or not, the digest equals recomputation |
| Wire.BlindTransportRecord.SourceAuthenticationBytes | src/polymorph/agents.py:306-328 | cached for this or another key or not at all, the bytes equal recomputation; refused for v2 |
| Wire.BlindTransportRecord.Signed | src/polymorph/agents.py:330-351 | the new object satisfies its invariant with the seeded cache equal to recomputation on the signed record, and keeps the digest |
| Benchmark.ReportBalances | src/polymorph/benchmark.py:334-457 | for every corpus and every matcher output: automatic decisions are correct plus incorrect, incorrect ones are unsafe plus invalid, suggestions and their failures cover the scored fields, and correct ones never exceed the eligible fields |
| BenchmarkMeaning.ReportMeans | src/polymorph/benchmark.py:334-457 | each of the sixteen counters is the number of fields and decisions with a stated property; an automatic decision is correct exactly when it is the only one for its field, honours the contract, has the expected target and is allowed and type-safe there |
| BenchmarkMeaning.ReportNamesUnsafe | src/polymorph/benchmark.py:413-438 | the unsafe failures of the report are those of the unsafe automatic decisions, one each and in order, and name exactly the rules each breaks |
| BenchmarkMeaning.MissedFieldIsNamed | src/polymorph/benchmark.py:386-457 | a field that is not suggested correctly has one suggestion failure, which says what was suggested or that nothing was |
| BenchmarkMeaning.ListingNamesBrokenRules | src/polymorph/benchmark.py:279-303 | a decision is reported for exactly the contract rules it breaks, duplication included |
| BenchmarkMeaning.GroupNamesBroken | src/polymorph/benchmark.py:349-374 | there is one contract failure for each unusable decision of a group, in order, naming exactly what is broken |
| BenchmarkMeaning.UsableIffDecides | src/polymorph/benchmark.py:345-361 | the decision that counts for a source is the only one about it, if that one honours the contract |
| Benchmark.RatiosAreShares | src/polymorph/benchmark.py:193-215 | precision, coverage, overall rate and suggestion accuracy lie between zero and one |
| Benchmark.GroupingLosesNothing | src/polymorph/benchmark.py:342-378 | counting group by group over the sources is counting decision by decision |
| Benchmark.ReportIsListed | src/polymorph/benchmark.py:329-331 | the three failure lists of the report are exactly as long as its counters say |
| Benchmark.GroupDecisions | src/polymorph/benchmark.py:342-344 | the dictionary holds every decision under its source, in order, with its keys as they first came |
| Benchmark.JudgeGroup | src/polymorph/benchmark.py:347-378 | keeps the only decision of a source if it honours the contract, and reports every other with all the rules it breaks |
| Benchmark.JudgeDecisions | src/polymorph/benchmark.py:345-378 | the loop over the groups keeps exactly the usable decision of each source, and its counters and failures are those of all decisions |
| Benchmark.ScoreField | src/polymorph/benchmark.py:381-457 | one field contributes exactly its declared counters and failures |
| Benchmark.ScoreFields | src/polymorph/benchmark.py:380-457 | the loop over the expected fields sums them, and raises exactly on an automatic decision for a field outside the source schema |
| Benchmark.RunCase | src/polymorph/benchmark.py:334-457 | one case contributes its invalid decisions, source by source, and then its fields |
| Benchmark.RunCases | src/polymorph/benchmark.py:306-479 | the nested loops compute the declarative report, whose counters balance and whose lists have the counted lengths |
| Percentile.SortIsSorted | src/polymorph/benchmark.py:260-260 | sorting gives an ascending permutation |
| Percentile.PercentileIsBounded | src/polymorph/benchmark.py:257-267 | a percentile stays between any bounds of the samples, so between their minimum and maximum |
| Percentile.PercentileIsMonotone | src/polymorph/benchmark.py:257-267 | a percentile never falls as the percentage rises over the unit interval |
| Percentile.PercentileIsPiecewiseLinear | src/polymorph/benchmark.py:257-267 | between the i-th and the next ordered sample the percentile is the straight line through both, over their shares i/(n-1) |
| Percentile.PercentileOfFew | src/polymorph/benchmark.py:257-262 | one sample is every percentile of itself, and without samples the answer is zero |
| Percentile.PercentileAtHalfIsMedian | src/polymorph/benchmark.py:257-267 | at one half the percentile is the median |
| Percentile.MedianIsAtMostP95 | src/polymorph/benchmark.py:474-475 | the reported p50 never exceeds the reported p95 |

## Left out

- SQLite itself: locking, PRAGMAs, column types other than text, index maintenance; a transaction is one atomic step.
- Clock.Parse: reads only the UTC spelling that `isoformat` writes; the other spellings `fromisoformat` accepts count as no expiry.
- Contract ids and the metadata of new records: printable characters and blanks are those of ASCII.
- LedgerRuns: tokens and attempt ids are assumed never to repeat (`FreshTokens`, `FreshAttempts`) where a property depends on it; the generator is not modelled.
- Ledger type checks of record objects, and `get` for one record.
- The audit hash is an idealised collision-free function into an unbounded space, and the JSON printer and reader are an arbitrary pair that round-trips.
- Audit edits of row numbers, the validation of event fields, back-filling a missing usage row, exports and summaries.
- Cryptographic primitives: signing, SHA-256 and sealing are arbitrary functions, taken as injective where a property says so.
- Wire: `str()` and `int()` of values that are not strings, and the JSON printer, are arbitrary functions of the host; printing with and without sorted keys has one length.
- Base64.GuardIsExact: says nothing about texts that are no encoding; the decoder accepts only padded text in the url-safe alphabet.
- JsonScan.ScanMeasuresDocument: bare tokens contain no slash, quote, bracket, comma, blank or byte-order mark; no number, literal or JSON5 name does.
- Zip.CountEntries: states nothing about a directory that would end behind the end of the file; `Zip.ReadMetadata` never returns one.
- The inspection of ZIP members, the XML scanner, gzip framing checks in front of the stream loop, and content identification.
- Gzip: which streams the decompressor refuses is up to the decompressor; compression ratios are real numbers.
- PathLock: kernel file locks, lock files, time-outs as durations, and path canonicalisation; a thread that fails behind the lock releases it like one that finishes.
- A matcher status that cannot be hashed, on which the benchmark raises.
- Benchmark latencies are samples given to `Percentile`; floating-point rounding is not modelled.
- The command line, the connectors and their registry, planning and execution of mappings, the process sandbox, OAuth, and the metadata and data-quality policies.
