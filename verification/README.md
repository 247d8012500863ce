# Verified model of the Aegis ID service core

This project models, in Dafny, the parts of Aegis ID whose correctness is hardest to see from the code, and proves what they promise. Run `dafny verify dfyconfig.toml` to check it.

- **Evidence ledger** (`code_units`, `json_text`, `json`, `json_reader`, `json_store`, `evidence_chain`, `audit_service`, `audit_queue`): the canonical serializer and an independent reader of its texts, the hash chain and its verifier, appending and migration, what the JSON file gives back, and the promise queue with reads and writes as separate steps. Text is a sequence of UTF-16 code units. SHA-256 is a parameter, any function from texts to 44-character base64 digests; tamper evidence is a reduction to two different texts with one digest that the chains at hand really hashed.
- **CSV import** (`js_text`, `csv_text`, `column_names`, `stable_sort`, `import_validation`, `import_acceptance`, `import_job`, `import_outcomes`): reader and cell writer, column names, validation against an existing population, and the background job with crashes between any two steps.
- **CSS rewriter** (`css_scope`): the scanners, the recursive rewriter and the tree of rules that it maps.
- **Signature conversion** (`ec_signature`): DER to JOSE for ECDSA P-256.
- **Token exchange and log paging** (`token_exchange`, `log_pages`, `connected_logs`).
- **Recovery protocols** (`reenrolment`, `approver_recovery`, `recovery_outcomes`, `break_glass`).

Loops over mutable state are methods proved against specification functions; services are classes whose methods are proved to perform the steps of a state machine, over whose runs the lemmas speak. Fields called history (`granted`, `presented`, `authorised`, `history`, ...) record what happened; what a step does never depends on them (`ImportJob.HistoryUnread` for the import job), they only serve to say that a random id is fresh. Each service call outside the ledger is one atomic step, because those services hold no lock across a read and a write. Time is an input that does not go back. Random ids and tokens are inputs; a run requires new record ids to be fresh. A stored salted hash is modelled by the secret it matches.

Where the code and its own texts differ, the model follows the code:

- `evidence-chain.js:5-7` says that deleting any record is detected. Dropping records from the tail leaves a chain that verifies (`EvidenceChain.ChainPrefix`). Removing an earlier record is detected (`EvidenceChain.RemovalPinpointed`), but such a store is no longer contiguous, so `audit-service.js:72-78` takes it for an unchained one and the next append re-chains it (`AuditService.RemovalThenAppend`; the exact condition is in `AuditService.AppendOutcome`).
- An event whose data has an `undefined` member outside the sensitive keys is hashed with that member as null and stored without it, so its own record no longer verifies when re-read (`AuditService.CommitVerifies` gives the exact condition, `AuditService.UndefinedMemberBreaks` an event).
- `credential-import-service.js:19-22` says that an interrupted job carries its count. It does exactly if no attempt was left without a save; otherwise the count is one short (`ImportJob.CrashSafe`), as in `ImportJob.InterruptedOneBehind`. The message of lines 438-442 tells to remove the first `done` rows of the file. These are the issued ones exactly if, besides, no refusal came before an issue (`ImportJob.AdviceExact`, against it `ImportJob.RefusedRowNamed`).
- `credential-import-service.js:157-158` says that a reported line is the one that the spreadsheet shows. Lines are counted after the blank rows have been dropped, so this holds exactly if no blank row comes before (`ImportValidation.ReportedLine`); `ImportValidation.BlankRowShiftsLine` is a file of which row 3 is reported as line 2. The lines in a job's `failures` are the same numbers.
- A leading byte order mark is dropped from the text (`credential-import-service.js:65`), also when it belongs to the first cell (`CsvText.RoundTrip` gives the exact condition, `CsvText.MarkIsLost` a table).
- `connected-app-service.js:574-587` looks up the code of a token request, and a backchannel record has none. A request without a code therefore reaches those records and can be answered with the token set of one, which section 4.1.3 of RFC 6749 does not allow (`TokenExchange.CodeRouteWithoutCode` gives the exact condition, `TokenExchange.TokenWithoutCode` a run).
- A 64-byte DER signature is taken for a raw one (`EcSignature.NormalizeExact`, `EcSignature.SixtyFourByteDer`).

## Model

| member | source | states |
|---|---|---|
| Json.CanonicalizeUnambiguous | src/services/evidence-chain.js:16-25 | two values have one canonical text exactly when they are the same value up to the order of object members, absent values standing for null; at any depth, for strings of arbitrary UTF-16 code units |
| Json.CanonicalPrefix | src/services/evidence-chain.js:16-25 | a canonical text inside a larger text is recognised without ambiguity: from equal texts follow equal values and equal rests |
| Json.NormalIffEquivalent | src/services/evidence-chain.js:16-25 | sorting keys recursively picks one representative of each class of values that differ in member order only |
| Json.SortAscending | src/services/evidence-chain.js:21 | the members of an object are serialized in strictly ascending key order by UTF-16 code unit |
| JsonText.QuotePrefix | src/services/evidence-chain.js:22-24 | a quoted string (section 7 of RFC 8259, lone surrogates escaped) is read back uniquely, whatever follows its closing quote |
| JsonText.NatTextPrefix | src/services/evidence-chain.js:24 | a decimal number is read back uniquely when no digit follows; its value is JsonReader.NatTextExact's |
| JsonReader.CanonicalReadsBack | src/services/evidence-chain.js:16-25 | a reader defined from the grammar of RFC 8259, and not from the serializer, takes the whole canonical text of any value and gives that value up to member order, absent values as null, with the keys of every object in ascending order |
| JsonReader.ReadCanonical | src/services/evidence-chain.js:16-25 | the same inside a larger text, exactly: literals, numbers, strings, arrays and objects are read as the representative of the value written, up to the delimiter that follows |
| JsonReader.NatTextExact | src/services/evidence-chain.js:24 | the digits that a number is written in have its value in base ten, `0` being worth 0, without a leading zero except for 0 itself (section 6 of RFC 8259) |
| JsonReader.EscapeExact | src/services/evidence-chain.js:24 | a UTF-16 unit is written as itself where that is allowed, with its two-unit escape where there is one, and otherwise as `\u` and four lower-case hexadecimal digits of its value (section 7 of RFC 8259) |
| JsonReader.QuoteByUnits | src/services/evidence-chain.js:22-24 | a string is quoted unit by unit: surrogates next to their other half as they are, every other unit by itself |
| JsonReader.ReadQuote | src/services/evidence-chain.js:22-24 | the reader takes a quoted string, whatever follows it, and gives the string |
| JsonReader.NormalExact | src/services/evidence-chain.js:16-25 | the representative of a value is that value up to member order, with the keys of every object in ascending order |
| CodeUnits.AscendingUnique | src/services/evidence-chain.js:21 | a set of keys has exactly one ascending listing, so the order of insertion cannot show |
| JsonStore.StoredCanonical | src/services/file-json-store.js:10-28 | a value has the same canonical text before a write and after the read exactly when none of its object members is undefined |
| JsonStore.StoredEquivalent | src/services/file-json-store.js:10-28 | the JSON store keeps a value, up to member order and null for undefined elements, exactly when none of its object members is undefined |
| JsonStore.StoredIdempotent | src/services/file-json-store.js:10-28 | a value that was read from the store is written and read back unchanged |
| JsonStore.StoredKeeps | src/services/file-json-store.js:10-28 | for every value and every path of keys and indices: what is not undefined is found where it was, an equal scalar, an array of the same length or an object with exactly the keys of its defined members in order; an undefined element reads null and an undefined member is gone |
| JsonStore.RedactHidesSecrets | src/services/audit-service.js:8-31 | redacted data shows no value under a sensitive key at any depth, stays well formed, and still holds an undefined member exactly when the data has one outside the sensitive keys; what must stay is JsonStore.RedactKeeps' |
| JsonStore.RedactKeeps | src/services/audit-service.js:19-31 | for every value and every path: if no key on it is sensitive, the redacted data has there an equal scalar, an array of the same length or an object with the same keys in the same order, or nothing if the data has nothing; if the last key is the first sensitive one it has `[redacted]`; below that there is nothing |
| EvidenceChain.TamperEvidence | src/services/evidence-chain.js:34-49 | two verifying chains with the same head hash have the same length and the same cores position by position, or the lemma returns two different texts with one digest, each hashed by its chain |
| EvidenceChain.PayloadTextUnambiguous | src/services/evidence-chain.js:34-45 | two cores have one payload text exactly when their id, type, data and createdAt agree |
| EvidenceChain.LinkTextUnambiguous | src/services/evidence-chain.js:47-49 | the dotted link text splits uniquely into sequence number, previous hash and payload hash |
| EvidenceChain.PayloadTextReads | src/services/evidence-chain.js:34-45 | the hashed payload text is read as an object of exactly the members createdAt, data, id and type, in this order, with the values of the core |
| EvidenceChain.LinkTextReads | src/services/evidence-chain.js:47-49 | the hashed link text, split at its dots, is the sequence number in decimal, the previous hash and the payload hash, and nothing else |
| EvidenceChain.VerifyChain | src/services/evidence-chain.js:84-113 | the loop's verdict is the specified one, whose meaning EvidenceChain.VerdictExact states |
| EvidenceChain.VerdictExact | src/services/evidence-chain.js:84-113 | ok exactly when every record links correctly; otherwise the count is the least broken index, everything before it verifies, and the reason is the first check that record fails |
| EvidenceChain.VerdictReason | src/services/evidence-chain.js:84-113 | what each reason means in terms of the record it is given for: a sequence number that is not its index; else a previous hash that is not that of the record before it, or of the start; else a payload hash that is not the digest of its own fields; else a hash that is not the digest of its link text |
| EvidenceChain.ChainAll | src/services/evidence-chain.js:62-71 | the re-chaining loop computes the specified chain |
| EvidenceChain.ChainSnoc | src/services/evidence-chain.js:52-71 | re-chaining a list with one more record is re-chaining the list and then building that record on its last one |
| EvidenceChain.ChainKeeps | src/services/evidence-chain.js:62-71 | re-chaining keeps the core and every property of a record outside the chain |
| EvidenceChain.ChainAllVerifies | src/services/evidence-chain.js:62-71 | re-chaining any records gives a chain that verifies, and is the identity on exactly the chains that verify |
| EvidenceChain.ChainPrefix | src/services/evidence-chain.js:84-113 | dropping records from the tail leaves a prefix that still verifies |
| EvidenceChain.EditPinpointed | src/services/evidence-chain.js:97-100 | replacing the core of record i in a verifying chain is reported at i as payload-tampered, unless the two payload texts have one digest; they are one text exactly when the cores agree |
| EvidenceChain.RemovalPinpointed | src/services/evidence-chain.js:91-93 | removing a record other than the last is reported as out of order at the index it left |
| AuditService.Service.WriteAuditEvent | src/services/audit-service.js:55-90 | one call stores exactly the migrated records and the new redacted, chained one, or the plain record when chaining is off; the record it returns has the id, type and time given and `{}` for absent data |
| AuditService.EventRecorded | src/services/audit-service.js:55-90 | the new record has the id, type and time given and, for every path, the data given with exactly the values of sensitive keys replaced by `[redacted]`; a plain record has no chain field |
| AuditService.EventOnFile | src/services/audit-service.js:55-90 | and the file then has every scalar of the data to which no sensitive key leads, at its place, and `[redacted]` for the value of a sensitive key |
| AuditService.AppendKeeps | src/services/audit-service.js:70-88 | the records before it are left as they are in a contiguous store; otherwise they keep their core and every property outside the chain and are marked as migrated exactly if they had no sequence number or were marked |
| AuditService.Service.VerifyAuditChain | src/services/audit-service.js:129-138 | the report is the specified one: empty, not chained, or the chain's verdict |
| AuditService.ReportExact | src/services/audit-service.js:129-138 | the report is ok with the full count exactly when every record links, not-chained exactly when some record's number is not its index or it has no hash, and otherwise the chain's verdict |
| AuditService.AppendOutcome | src/services/audit-service.js:70-88 | one append keeps every core in place and adds the new one; the result verifies exactly when the store verified or was not chained; a contiguous but broken store keeps its verdict |
| AuditService.RemovalThenAppend | src/services/audit-service.js:72-78 | a verifying store that lost a middle record is reported as not chained, and verifies again after the next append has re-chained it |
| AuditService.RereadPayload | src/services/audit-service.js:58-63 | the payload text recomputed after a write and a read is the hashed one exactly when no member of the core is undefined |
| AuditService.CommitVerifies | src/services/audit-service.js:58-88 | after a write and a read an extendable store verifies if no member was undefined; otherwise the new record is reported as tampered with, or two different texts share a digest |
| AuditService.UndefinedMemberBreaks | src/services/audit-service.js:58-63 | a concrete event, { a: undefined }, comes back as {} and, unless two different texts share a digest, the ledger reports it as tampered with |
| AuditService.EventCoreKeepsUndefined | src/services/audit-service.js:58-63 | redaction removes the undefined members under sensitive keys and no others |
| AuditService.RunVerifies | src/services/audit-service.js:55-90 | any non-empty run of such writes, each re-read from the file, turns a verifying or unchained store into a verifying one with every record counted |
| AuditQueue.Queue.Enqueue | src/services/audit-service.js:46-53 | a call waits for the promise that was in the queue and becomes the promise in it |
| AuditQueue.Queue.ReadStore | src/services/audit-service.js:55-56 | a started task holds the store as it read it, or has failed |
| AuditQueue.Queue.WriteStore | src/services/audit-service.js:80-86 | a task writes what it derives from its own snapshot, or fails and writes nothing |
| AuditQueue.NextKeepsInv | src/services/audit-service.js:43-90 | every step of every call, failures included, keeps the store equal to the writing calls applied one after another in call order |
| AuditQueue.Linearizable | src/services/audit-service.js:43-90 | the same over every run of overlapping calls |
| AuditQueue.NothingLost | src/services/audit-service.js:43-90 | in every reachable state at most one call is between its read and its settling, the stored cores are the initial ones followed by exactly the written ones in call order, and every call that was answered with success is among them |
| AuditQueue.TasksAreCalls | src/services/audit-service.js:46-63 | over every run there is one task for each call, in call order, with the type and data that the call brought |
| AuditQueue.FirstUnsettledCanStep | src/services/audit-service.js:46-53 | the first call that has not settled can always take a step, whatever the calls before it came to, and no other call can |
| AuditQueue.StepsRunOut | src/services/audit-service.js:46-53 | every step other than a new call brings the run closer to all calls settled |
| AuditQueue.LedgerVerifies | src/services/audit-service.js:43-90 | over every run whose data loses no member in the file, the ledger verifies in every state after the first write |
| CsvText.ReadCsv | src/services/credential-import-service.js:60-106 | the loop reads the specified rows |
| CsvText.RoundTrip | src/services/credential-import-service.js:60-111 | a table of arbitrary strings, written with quoted cells, commas and any of the three row ends (section 2 of RFC 4180), is read back as exactly its non-blank rows, unless the text begins with a byte order mark on a non-blank row: an equivalence |
| CsvText.ScanTable | src/services/credential-import-service.js:67-105 | the reader in its start state, whatever rows it already has, adds exactly the non-blank rows of a written table |
| CsvText.ScanCell | src/services/credential-import-service.js:69-96 | a written cell of any content is read as that content up to the delimiter |
| CsvText.WithoutMark | src/services/credential-import-service.js:65 | the text without a leading byte order mark is that of the table without it in its first cell |
| CsvText.MarkIsLost | src/services/credential-import-service.js:65 | a concrete table of one cell that begins with the mark is read back without it |
| CsvText.ReadRowAt | src/services/credential-import-service.js:103-105 | the k-th row read stands at row k of the file exactly if no blank row comes before it, and otherwise as many rows further on as there are |
| CsvText.BlankRowExact | src/services/credential-import-service.js:103-105 | a row is dropped exactly if every character of every cell is white space |
| CsvText.KeptInOrder | src/services/credential-import-service.js:103-105 | every other row is kept, and the kept ones stay in order |
| CsvText.CellPlain | src/services/credential-import-service.js:108-111 | a cell is written as it is exactly if it holds no quote, comma or line break |
| JsText.TrimExact | src/services/credential-import-service.js:105 | trimming takes away all white space at both ends and nothing else |
| ColumnNames.ColumnLetter | src/services/credential-import-service.js:329-340 | the loop terminates with the column's name, empty for a negative index |
| ColumnNames.Bijective | src/services/credential-import-service.js:329-340 | a word is the name of column n exactly when it is a non-empty A-Z word that denotes n, so names and columns correspond one to one |
| ColumnNames.ColumnOfName | src/services/credential-import-service.js:329-340 | decoding a column's name gives its index back |
| ColumnNames.NameOfColumn | src/services/credential-import-service.js:329-340 | every non-empty A-Z word is the name of the column it denotes |
| ImportValidation.ValidateRows | src/services/credential-import-service.js:203-326 | the report names exactly the faults of the rows, each at its column and at its line among the rows that are not blank, the header being 1, and a repetition with the line it repeats, and the plan limit, ordered by line and column; rows come back only for an empty report |
| ImportValidation.ReportedLine | src/services/credential-import-service.js:156-206 | a reported line is the row of the spreadsheet exactly if no blank row comes before that row, and otherwise short by the number of those |
| ImportValidation.BlankRowShiftsLine | src/services/credential-import-service.js:156-206 | a concrete file whose fault is in row 3 of the spreadsheet and is reported at line 2 |
| ImportValidation.ValidateCsv | src/services/credential-import-service.js:159-327 | accepted exactly for files within the size and row limits whose headings are known and whose rows are all good, which ImportAcceptance.AcceptedExactly spells out; otherwise the report says exactly what is wrong |
| ImportValidation.CheckFields | src/services/credential-import-service.js:217-307 | the problems of a row by itself are exactly its faults of contact, format, person type, division, roles, validity and claims, each at its column |
| ImportValidation.CheckHeader | src/services/credential-import-service.js:172-187 | the problems of the headings are exactly the blank and the unknown ones, each at its column, and a missing contact column |
| ImportValidation.ReportEmpty | src/services/credential-import-service.js:203-326 | a report is empty exactly when no row has a fault and the plan has room |
| ImportValidation.AcceptedAreNew | src/services/credential-import-service.js:229-247 | accepted e-mails and Wallet IDs are new to the organization and to each other |
| ImportValidation.AcceptedResolves | src/services/credential-import-service.js:249-307 | the division of an accepted row is the first that its cell denotes, by id or by name in any case, and the root when none is named; its role ids are, token by token, those of the first role that each denotes; person type and claim values are allowed ones, the lifetime is from 1 to 365 days if given, and the row can be named to the administrator |
| ImportAcceptance.AcceptedExactly | src/services/credential-import-service.js:159-327 | a file is accepted exactly if it is at most a megabyte long, its headings are good, it has 1 to 1000 rows, every row is good and the plan has room |
| ImportAcceptance.RowGoodExact | src/services/credential-import-service.js:217-307 | a row has no fault exactly if, spelled out: it gives a contact; its e-mail matches, is not held and not in an earlier row; its Wallet ID parses, is not held and not in an earlier row; its phone matches; its person type, its division and every role exist; its lifetime is a number from 1 to 365 as written in decimal; its claim values are among their options |
| ImportAcceptance.HeadingsExact | src/services/credential-import-service.js:172-187 | the headings are good exactly if each is one of the eight of the template or that of a claim, and one of them is a contact's |
| ImportAcceptance.RowRead | src/services/credential-import-service.js:205-216 | every field of a row is the trimmed cell under its own heading, the last of several, empty if there is none; e-mail and person type in small letters, the latter by default employee |
| ImportAcceptance.TokensExact | src/services/credential-import-service.js:265-267 | the role tokens are the pieces between the semicolons, trimmed, those that are not blank, in order |
| ImportAcceptance.TtlExact | src/services/credential-import-service.js:278-287 | a lifetime is accepted exactly if it is a number from 1 to 365 as written in decimal, and read as that number |
| ImportAcceptance.AcceptedInput | src/services/credential-import-service.js:289-309 | what is issued for an accepted row has its e-mail, display name, Wallet ID, phone, person type, lifetime and exactly its claim values, its line, and the first contact that it gives |
| ImportAcceptance.ProblemColumn | src/services/credential-import-service.js:203-210 | a problem names the first column with the heading that it concerns, and none if there is no such column |
| ImportValidation.AcceptedIssuesSafely | src/services/credential-import-service.js:311-323 | issuing accepted rows in any order, any of them left out, keeps e-mails and Wallet IDs unique and stays within the plan limit |
| ImportJob.JobRunner.SaveJob | src/services/credential-import-service.js:414-427 | after a save the store holds exactly the saved job and the others it held, finished ones past their week excepted, and ids stay distinct |
| ImportJob.JobRunner.StartImport | src/services/credential-import-service.js:345-385 | an import starts, and its job is stored as running, exactly if the listing shows no running job of the workspace |
| ImportJob.JobRunner.RunJob | src/services/credential-import-service.js:387-412 | the loop ends with the specified job and store |
| ImportJob.JobRunner.ListJobs | src/services/credential-import-service.js:431-452 | listing marks exactly the running jobs that this process did not start and shows the workspace's jobs, newest first |
| ImportJob.NewestFirstSorts | src/services/credential-import-service.js:449-451 | the jobs shown are the workspace's, each once, by falling age, and jobs of one moment in stored order |
| ImportJob.ActiveShown | src/services/credential-import-service.js:454-456 | the listing of a workspace shows a running job exactly if one is stored |
| ImportJob.RunRowsOutcome | src/services/credential-import-service.js:387-412 | an undisturbed run tries all rows unless one is refused with 402 or 403, fails exactly then, and its status, done, failed and failures agree in all three outcomes |
| ImportJob.RunIsStored | src/services/credential-import-service.js:406-427 | after the run the store holds the finished job and no other under its id |
| ImportJob.UndisturbedRun | src/services/credential-import-service.js:345-412 | the steps of a start and of the loop, with nothing in between, are a run of the state machine and leave the store that the loop computes |
| ImportJob.SavedJobs | src/services/credential-import-service.js:414-427 | ids stay distinct and the store holds the saved job and the others it held, those past their week excepted |
| ImportJob.NextKeepsInv | src/services/credential-import-service.js:345-452 | every step of every job, crashes, failed saves and restarts included, keeps the loop's position at the number of rows tried in file order, a job in memory at what its attempts made of it, and a stored job at what the saved ones made of it |
| ImportJob.CrashSafe | src/services/credential-import-service.js:387-452 | at every point of every run rows were tried in file order, as a prefix, none twice; a stored job's done and failed are those of the attempts that were saved, and of all attempts exactly if the last one was; the last attempt of a job in memory is unsaved exactly between its attempt and its save |
| ImportJob.InterruptedOneBehind | src/services/credential-import-service.js:19-22 | a concrete run, a restart between issuing a row and saving that, whose interrupted job carries a count one short |
| ImportJob.AdviceExact | src/services/credential-import-service.js:436-442 | over every run the first `done` rows of a stored job are the issued ones exactly if no refusal came before an issue and the last attempt is not an unsaved issue |
| ImportJob.RefusedRowNamed | src/services/credential-import-service.js:436-442 | a concrete run whose interrupted job has exact counts and tells to remove its first row, which was refused, while the second one was issued |
| ImportJob.OneImportAtATime | src/services/credential-import-service.js:347-352 | over every run at most one running job of a workspace is stored |
| ImportJob.AbandonedBlocks | src/services/credential-import-service.js:347-385 | a job whose save failed keeps its workspace from importing until the process restarts |
| ImportJob.FailedSaveAbandons | src/services/credential-import-service.js:384-427 | a failed save leaves its job stored as a running one of this process that no run continues |
| ImportJob.DeadStaysDead | src/services/credential-import-service.js:429-452 | a job that is not in memory is never attempted again, however the process goes on |
| ImportJob.RestartInterrupts | src/services/credential-import-service.js:429-448 | after a restart, listing turns exactly the jobs left running into interrupted ones with the counts they had |
| ImportOutcomes.ReplayExact | src/services/credential-import-service.js:387-405 | a job that rows were tried for counts each issued and each refused row once, lists the line of each refused row in order and one general entry after a stopping refusal, and is stopped exactly by such a one; nothing else of it changes |
| ImportOutcomes.ReplacedExact | src/services/credential-import-service.js:414-421 | a saved job takes the place of the first one under its id, and comes last if there is none |
| ImportOutcomes.DropOldExact | src/services/credential-import-service.js:422-425 | a save drops, entry by entry and in place, exactly what was finished a week ago or earlier |
| ImportOutcomes.OfWorkspaceExact | src/services/credential-import-service.js:449-450 | a workspace is shown, entry by entry and in place, exactly its own jobs |
| StableSort.SortIsStable | src/services/credential-import-service.js:325 | sorting gives an ordered permutation that keeps elements that compare equal in their order; the listing, the report and the log use it |
| CssScope.FindMatchingBrace | src/app.js:193-241 | the scanner returns the specified index for every text |
| CssScope.ClosedExact | src/app.js:193-241 | a text with closed quotes and comments and balanced braces is paired with its enclosing braces whatever follows, and only such a text is |
| CssScope.SplitSelectorList | src/app.js:257-302 | the loop splits as specified |
| CssScope.SplitExact | src/app.js:257-302 | the pieces joined by commas are the list again, and no piece holds a comma outside quotes, parentheses and brackets |
| CssScope.ScopeSingleOnce | src/app.js:304-312 | a selector that is empty, an at-rule or begins with the scope stays as it is; one that begins with :root, html or body as a whole word becomes the scope and what follows that word; any other becomes the scope, one space and the whole selector; all but empty ones and at-rules then start with the scope, and scoping again changes nothing |
| CssScope.RootElementExact | src/app.js:308-309 | the root word is found exactly if the selector is that word followed by nothing, white space or one of `.#:[>+~` |
| CssScope.AtRulesExact | src/app.js:243-249 | the nesting and the raw at-rules are exactly those of the eight names, in letters of either case and as whole words |
| CssScope.SplitListExact | src/app.js:298-302 | only a last piece that is all white space is left out of the list |
| CssScope.TextConfined | src/app.js:161-312 | for every text: its leaf rules are kept one by one with their bodies; raw at-rules stay, of every other prelude each selector becomes what CssScope.ScopeSingleOnce says, and all of these start with the scope exactly if none of them is empty or an at-rule, unless it starts with the scope already |
| CssScope.SheetConfined | src/app.js:161-312 | the same for every tree of rules |
| CssScope.ImportEscapes | src/app.js:304-307 | a concrete rule that stays outside the container, its selector following an @import |
| CssScope.ScopeCssSelectors | src/app.js:161-191 | the recursive loop terminates on every text with the specified one |
| CssScope.ScopeIsTreeMap | src/app.js:161-191 | for every text: it is the print of a tree of rules, and rewriting it prints that tree with each leaf selector scoped |
| CssScope.PrettyIsPrint | src/app.js:161-191 | the rewriter's own spacing of a tree differs from its plain print in white space only |
| CssScope.ParsePrint | src/app.js:161-191 | the printed text of a proper tree (nested at-rules of any depth, raw at-rules, closed bodies, no brace in a prelude) is read as that tree |
| CssScope.ScopingTransformsTree | src/app.js:161-191 | scoping the printed text of a proper tree prints the tree with each leaf selector scoped, bodies and order unchanged |
| EcSignature.ReadDerInteger | src/services/did-web-service.js:247-265 | reading an integer gives the specified bytes and next offset, or the error |
| EcSignature.DerToJoseSignature | src/services/did-web-service.js:236-245 | the conversion computes the specified signature or error |
| EcSignature.NormalizeEcSignatureToJose | src/services/did-web-service.js:224-234 | normalizing computes the specified signature or error |
| EcSignature.PaddedValue | src/services/did-web-service.js:254-275 | stripping and padding write the 32 low-order bytes of the number, for content of any length |
| EcSignature.JoseOfSequence | src/services/did-web-service.js:236-275 | for two integers of any width behind any length field, whatever follows, the result is the 32 low-order bytes of each |
| EcSignature.ConvertedExactly | src/services/did-web-service.js:236-265 | a signature is converted exactly if an integer tag stands behind its length field and another one where the first integer ends; the result has 64 bytes |
| EcSignature.DerToJosePreservesValues | src/services/did-web-service.js:236-275 | for all r and s below 2^256 in minimal DER (section 8.3 of X.690) the result is 64 bytes whose halves are r and s (section 3.4 of RFC 7518) |
| EcSignature.ContentOf | src/services/did-web-service.js:247-265 | every number below 2^256 has a minimal non-negative content of at most 33 bytes with its value |
| EcSignature.NormalizeExact | src/services/did-web-service.js:224-234 | normalizing the DER form gives the JOSE form exactly when the DER form is not 64 bytes long |
| EcSignature.SixtyFourByteDer | src/services/did-web-service.js:225-227 | a concrete DER signature of 64 bytes, which is returned unconverted |
| EcSignature.NormalizeIdempotent | src/services/did-web-service.js:224-234 | on every input, what normalizing returns is a fixed point of it, and what it converts has 64 bytes |
| TokenExchange.ConnectedApps.CreateConnectedAuthorizationCode | src/services/connected-app-service.js:513-566 | a new code record is stored, pending exactly if a challenge was created |
| TokenExchange.ConnectedApps.ExchangeConnectedAuthorizationCode | src/services/connected-app-service.js:568-612 | outcome and new store of the code route are the specified ones |
| TokenExchange.ConnectedApps.CreateBackchannelAuthenticationRequest | src/services/connected-app-service.js:614-691 | a new pending backchannel record is stored with its clamped lifetime |
| TokenExchange.ConnectedApps.ExchangeBackchannelAuthenticationToken | src/services/connected-app-service.js:693-735 | outcome and new store of the backchannel route are the specified ones, whose meaning TokenExchange.PendingExchange and TokenExchange.TokensAnswerRequests state |
| TokenExchange.ConnectedApps.AssertChallengeAccepted | src/services/connected-app-service.js:1216-1228 | the refusal, if any, that a record's challenge gives |
| TokenExchange.BackchannelTtlSeconds | src/services/connected-app-service.js:625 | the lifetime is the requested one within 60 to 900 seconds, the nearest bound outside of them, and 300 if none is requested |
| TokenExchange.NextKeepsInv | src/services/connected-app-service.js:513-735 | every step keeps: at most one token set per record on both routes together, each in time, for the record's client and redirect URI, and for a record created pending attesting a challenge that a wallet accepted |
| TokenExchange.AtMostOneTokenSet | src/services/connected-app-service.js:513-735 | the same over every run (section 4.1.2 of RFC 6749, section 11 of OpenID CIBA Core 1.0) |
| TokenExchange.TokensAnswerRequests | src/services/connected-app-service.js:513-735 | over every run each record is bound to the call that created it, and each token set answers that call: its client, its subject, its lifetime; all the claims passed if no challenge was asked for, and otherwise an acr that names the assurance of the accepted challenge (wallet if it has none), the challenge's id and the second of the redemption |
| TokenExchange.NextEvolves | src/services/connected-app-service.js:513-735 | no step loses a record or changes its binding or its subject, and a redeemed record is final |
| TokenExchange.RefusalChangesNothing | src/services/connected-app-service.js:568-735 | a refused attempt, a still-pending one included, changes nothing, except that exactly an overdue, unredeemed backchannel request of the caller is marked expired, and only that |
| TokenExchange.PendingExchange | src/services/connected-app-service.js:699-735 | a pending request of the caller, on either route, is refused as expired once it is overdue; until then it yields a token set with its subject and the challenge's assurance exactly if the challenge stands accepted, and is refused as denied if it was declined, as expired if it is overdue, as pending if not, and as missing if there is none |
| TokenExchange.CodeRouteExact | src/services/connected-app-service.js:574-597 | the code route refuses in this order: no record with the code, another client or redirect URI, already used, overdue; an unchallenged code then yields its claims; a token set marks its record as redeemed with these claims and changes nothing else |
| TokenExchange.BackchannelRouteExact | src/services/connected-app-service.js:699-719 | the backchannel route refuses in this order: no request with the id, another client, already redeemed, overdue; a token set marks its record as redeemed with its claims and changes nothing else |
| TokenExchange.FreshCodeExchangesOnce | src/services/connected-app-service.js:513-612 | an unchallenged code is exchanged exactly by its client, with its redirect URI, within five minutes, and a second exchange is refused as used |
| TokenExchange.CodeRouteWithoutCode | src/services/connected-app-service.js:574-595 | on the code route a request without a code redeems the oldest backchannel record exactly if it names no redirect URI and that record is the caller's, pending, in time and accepted; otherwise it changes nothing |
| TokenExchange.TokenWithoutCode | src/services/connected-app-service.js:574-595 | a concrete run in which a token request with neither a code nor a request id is answered with a token set |
| LogPages.PageInRange | src/services/connected-app-service.js:834-865 | for any list and any requested page and size the page shown is the requested one within those that exist, of the requested size within 1 to 50 and 10 by default; its slice is in range, full unless last, and the flags and neighbours are correct |
| ConnectedLogs.SelectedExact | src/services/connected-app-service.js:826-850 | the paged list holds exactly the records that pass the filters, as often as the log does, ordered by the chosen key in the chosen direction, equal ones in log order |
| ConnectedLogs.MatchesExact | src/services/connected-app-service.js:837-849 | a record is shown exactly if it agrees with every filter that is set and its searched text, in small letters, has the search in it |
| ConnectedLogs.SearchedExact | src/services/connected-app-service.js:844-847 | the searched text is the five fields with spaces between them, the status code in decimal |
| ConnectedLogs.MatchingExact | src/services/connected-app-service.js:837-849 | the log is filtered record by record, in order |
| ConnectedLogs.OrderExact | src/services/connected-app-service.js:1486-1497 | a record may come before another exactly if its chosen field is equal or less by code unit, or by number for the status code, and the other way round for the descending direction |
| LogPages.ExportRows | src/services/connected-app-service.js:941-948 | visiting page after page, each listed anew, collects every row of the list once and in order |
| ConnectedLogs.ExportConnectedAppLogs | src/services/connected-app-service.js:941-948 | the pages that the listing shows, one after another, are the whole filtered and sorted list |
| LogPages.TotalPagesExact | src/services/connected-app-service.js:856 | the number of pages is the least that holds the list |
| ApproverRecovery.RecoveryService.FindApproverOrganization | src/services/approver-recovery-service.js:104-133 | of the administered workspaces the first with the most confirmed root wallets |
| ApproverRecovery.RecoveryService.StartApproverRecovery | src/services/approver-recovery-service.js:195-290 | one call replaces the account's live request by a new one that asks the confirmed wallets, or changes nothing |
| ApproverRecovery.StartsExactly | src/services/approver-recovery-service.js:104-243 | a request starts exactly for a passwordless account one of whose workspaces has two confirmed root wallets, and asks exactly the confirmed wallets of one workspace |
| ApproverRecovery.RecoveryService.ApproveRecoveryRequest | src/services/approver-recovery-service.js:344-390 | one call marks at most the one approver that the wallet and token name |
| ApproverRecovery.RecoveryService.ClaimApproverRecovery | src/services/approver-recovery-service.js:400-445 | one call completes the request and issues the grant, or says why not |
| ApproverRecovery.NextKeepsInv | src/services/approver-recovery-service.js:195-445 | every step on the two stores keeps what ApproverRecovery.RecoverySafe states |
| ApproverRecovery.RecoverySafe | src/services/approver-recovery-service.js:195-445 | over every run an account has at most one live request and one grant, no request completes twice, every completion falls before the expiry and rests on two distinct wallets, confirmed when the request started, that each presented their own token while it was open and before it completed, every approval came from a wallet asked and in time, and no grant is spent twice |
| ApproverRecovery.TwoApprovalsSuffice | src/services/approver-recovery-service.js:195-445 | two of the asked wallets approving within a day are enough, one is not, and the claim issues a grant that its token resolves to |
| ApproverRecovery.ApproveTwiceIsOnce | src/services/approver-recovery-service.js:373-390 | scanning the same link again changes nothing and answers the same |
| RecoveryOutcomes.MostConfirmedFirst | src/services/approver-recovery-service.js:104-133 | the workspace chosen is the first of those with the most confirmed root wallets |
| RecoveryOutcomes.StartExact | src/services/approver-recovery-service.js:215-290 | a new request comes first, needs two approvals within 24 hours, and asks every wallet with the token minted for it; nothing else changes but the account's open request |
| RecoveryOutcomes.OthersExact | src/services/approver-recovery-service.js:216-220 | of the stored requests exactly the open ones of the account are dropped, the others stay in order |
| RecoveryOutcomes.ApproveExact | src/services/approver-recovery-service.js:344-390 | an approval is valid exactly if an open request keeps this token for this wallet; the first one notes the time there and changes nothing else, any other call changes nothing |
| RecoveryOutcomes.ClaimExact | src/services/approver-recovery-service.js:400-445 | a claim finds the first open request of its status token; with too few approvals it says how many there are and changes nothing; otherwise it completes the request, drops its tokens and adds one grant for an hour unless the account cannot have one |
| RecoveryOutcomes.ApprovedByExact | src/services/approver-recovery-service.js:414 | the approvals counted are exactly those of the wallets with a time of approval |
| Reenrolment.GrantStore.GrantReenrolment | src/services/account-reenrolment-service.js:85-121 | one call replaces the account's grant, or says why the account cannot have one |
| Reenrolment.GrantStore.ConsumeGrant | src/services/account-reenrolment-service.js:161-170 | one call spends the grant if it is there and unspent |
| Reenrolment.AddGrantOnePerUser | src/services/account-reenrolment-service.js:105-121 | a new grant, for an hour, is the account's only one, and of the other accounts' grants exactly the expired ones are dropped; each account keeps at most one |
| Reenrolment.ConsumeOnce | src/services/account-reenrolment-service.js:143-170 | a spent grant is not spent again and no token resolves to it |
| Reenrolment.ConsumeExact | src/services/account-reenrolment-service.js:161-170 | a grant is spent exactly if it is stored and unspent; it alone then carries the time |
| Reenrolment.ResolveExact | src/services/account-reenrolment-service.js:143-158 | a token resolves to a grant exactly if it matches it, the grant is live and its account exists |
| BreakGlass.BreakGlassService.IssueBreakGlassCode | src/services/break-glass-service.js:102-162 | one call stores an inert code, or refuses without change |
| BreakGlass.BreakGlassService.AuthoriseBreakGlassCode | src/services/break-glass-service.js:170-213 | one call activates the code whose token is presented, or refuses without change |
| BreakGlass.BreakGlassService.RedeemBreakGlassCode | src/services/break-glass-service.js:222-276 | one call redeems the active code that matches, or refuses without change |
| BreakGlass.BreakGlassService.RevokeBreakGlassCode | src/services/break-glass-service.js:279-298 | one call revokes the workspace's code unless it was redeemed |
| BreakGlass.IssueExact | src/services/break-glass-service.js:102-162 | a code is issued exactly if the workspace has a confirmed root wallet and no code that is active or waits in time; the new one comes first in the store and waits for 72 hours |
| BreakGlass.AuthoriseExact | src/services/break-glass-service.js:170-213 | a code is activated exactly if the token is that of a waiting code, presented before its deadline by a then confirmed root wallet of its workspace; nothing else changes |
| BreakGlass.RedeemExact | src/services/break-glass-service.js:222-276 | a code is redeemed exactly if a ticket is given and the first record that it matches is active; that record then carries who and, to 120 characters, the ticket |
| BreakGlass.RevokeExact | src/services/break-glass-service.js:279-298 | a code is revoked exactly if the workspace has one under this id that was not redeemed; it loses its token and nothing else changes |
| BreakGlass.NextKeepsInv | src/services/break-glass-service.js:102-298 | every step keeps what BreakGlass.BreakGlassSafe states |
| BreakGlass.BreakGlassSafe | src/services/break-glass-service.js:102-298 | over every run with advancing time a workspace has at most one live code, every active or redeemed code was authorised before its deadline by a then confirmed root wallet of its workspace, and no code is redeemed twice |
| BreakGlass.StatusMoves | src/services/break-glass-service.js:199-288 | redeemed and revoked are never left, only an active code is redeemed and only an awaiting one activated |
| BreakGlass.IssuedCodeWorksOnce | src/services/break-glass-service.js:102-276 | a fresh code is refused before its authorisation, can be authorised exactly within 72 hours, and is then redeemed once |
| BreakGlass.RevokedCodeRefused | src/services/break-glass-service.js:222-298 | a revoked code is refused ever after, whatever steps come between, and the attempt changes nothing |

## Left out

- Signing and anchoring of the ledger: the model has the signer and the anchor disabled, so `verifyChain` checks no signatures.
- Numbers are integers: fractions, `NaN`, infinities and `-0`, and integers from 10^21 on, which JavaScript writes with an exponent, are not modelled.
- Values with `toJSON`, symbols, functions and sparse arrays do not occur in the modelled data; the white space of the stored file is not modelled.
- `fail` reports a sequence number that is a number but not an integer as it stands; the model knows integers only.
- EvidenceChain.TamperEvidence: assumes that objects have distinct keys, as every JavaScript object does.
- AuditQueue.NothingLost: lists the cores as the file gives them back, since the file drops undefined members.
- The file system under the JSON store: a write happens as a whole or not at all, as its rename intends.
- CssScope.ScopeCssSelectors: the scope is taken as plain text; a scope with `$` would be read as a replacement pattern by `String.prototype.replace`, and the only caller passes `.embedded-document`.
- CssScope.ScopingTransformsTree: a `{` inside a quoted selector or a comment before a rule is outside the trees it covers, because the rewriter takes it for the start of the body; CssScope.ScopeIsTreeMap covers these texts as they are read.
- The rest of the embedded-document handling in `app.js`: regular-expression extraction of HTML and class prefixing.
- CsvText.RoundTrip: texts are sequences of Unicode characters; characters written as surrogate pairs are single characters there, and none of them matters to the reader.
- ImportValidation.ValidateCsv: a problem carries its kind and what its message names instead of the wording; the byte count of the text is a parameter; the e-mail and phone patterns, lower-casing and `parseWalletId` are arbitrary functions; `localeCompare` of two column names is their alphabetical order.
- ImportValidation.AcceptedResolves: `unit-root` is the default division whether or not the organization lists it, as in the code.
- ImportJob.JobRunner.RunJob: one time stands for all saves of an undisturbed run; the step model lets time pass between them.
- ImportJob.JobRunner.StartImport: the privilege check and the validation come before it; a first save that throws starts nothing and is not a step. The issuing of a credential itself is an outcome per row.
- TokenExchange.ConnectedApps.ExchangeConnectedAuthorizationCode: client authentication, the enabled and grant checks, token signing and logging are left out; the step begins with an authenticated client. Of the claims the model has the subject and the three that a challenge sets; an assurance is a normalized text.
- Wallet challenges, root wallets, subscriptions and plans are oracles: a map of answers, a set of confirmed wallets, a limit.
- ConnectedLogs.SelectedExact: filters and requested keys are taken as normalized texts and lower-casing is an arbitrary function; the payload of a record and the CSV text of the export are not modelled.
- Approver recovery: delivery of messages, `notifiedAt`, the status page and `cancelledAt`, which no code sets; the workspaces that an account administers are an input.
- ApproverRecovery.RecoverySafe: assumes that a workspace lists each root wallet once.
- Reenrolment.ResolveExact: assumes that live grants have different tokens, as random tokens are.
- BreakGlass.RevokedCodeRefused: assumes that stored codes are distinct and that the revoked one is not drawn again, as random codes are.
- Break-glass code generation, normalization of the typed code and hashing: the code is the text that matches.
- Routes, middleware, views, browser and maintenance scripts, mail and SMS delivery, billing, adapters and the remaining services: input, output and short invariants.
