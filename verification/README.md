# Verification of the cable-tray quotation back end

The repository is a back end in which designers keep project drafts, have them calculated against a
pinned catalog, save the results as revisions, have those checked and approved, and export them as
Excel workbooks. This project models the parts of it that hold state machines, printers, parsers and
validators, and proves what they are for. `dafny verify dfyconfig.toml` checks all of it.

The form follows the source. The repositories are classes whose methods change their tables, and
each method is one transaction; the CSV reader, the ZIP check, the recovery worker, the draft checks
and the compiler are methods with loops; printers and normal forms are functions. A method that
changes state states its whole new state as a function of the old one (`AfterSave`, `AfterClaim`,
`AfterValidation`, ...), and the theorems about runs are proved of these functions, for all runs.
What these functions, the printers and the checks mean is stated once more without them, in the
columns and characters themselves (`JsonReader` and the modules whose names end in `Meaning`, `Layout`
and `Drafts`, `Transactions` and `Answers`).

| modules | what they hold |
|---|---|
| `Sorting`, `JsText`, `Tables`, `Wrappers` | stable sorting by a key, JavaScript strings, rows of tables, options and results |
| `CanonicalJson`, `UniqueReading`, `CanonicalTheorems`, `JsonReader` | canonical JSON text, what it identifies, and a reader of JSON that reads it back |
| `Fingerprint`, `FingerprintTheorems`, `FingerprintMeaning` | the normal form behind the calculation fingerprint |
| `RevisionEvidence`, `EvidenceTheorems`, `EvidenceLayout` | the seven checksums of a revision, computed and verified, and what each is taken of |
| `Csv`, `CsvTheorems`, `CsvSplit`, `CsvMeaning` | the CSV reader and writer |
| `ZipArchive`, `ZipTheorems`, `ZipWriter` | the check of a rendered workbook, and the archives it accepts |
| `ExportQueue`, `ExportWorker`, `ExportSafety`, `ExportProgress`, `ExportMeaning` | export jobs under leases |
| `ProjectStore`, `ProjectDatabase`, `ProjectRuns`, `Transactions` | drafts, calculations and revisions, and their runs |
| `ProjectProvenance`, `ProjectAccess`, `RevisionLifecycle`, `RevisionIntegrity` | what those runs keep, and that what they save verifies |
| `Idempotency`, `Refusals`, `Answers`, `Paging` | repeated and refused requests, the answers given, and the pages of a history |
| `CatalogStore`, `CatalogRepository`, `CatalogLifecycle`, `CatalogContent`, `CatalogMeaning`, `CatalogLog` | versions of a catalog |
| `Preflight`, `Compilation`, `CompilationTheorems`, `ReadyDrafts`, `CompiledDrafts` | the checks of a draft, and its compilation |

## What the code does not do

Some properties that one would expect are false of the code. The code is modelled as it is, and the
exact condition is proved.

* A check or approve that is refused for want of the capability is recorded as rejected only if the
  actor can see the revision's history. If not, the same call with the same key succeeds once the
  actor has been made a reviewer (`ForbiddenThenPromoted`, with the run `RefusedThenAccepted`).
* A refused save is not recorded at all, so it may succeed when it is repeated (`RefusedSaveLater`,
  with the run `SavedOnRepeat`), unless it has been overtaken (`OvertakenSaveNeverSucceeds`).
* A catalog version whose content was once reported invalid cannot be approved with that content,
  although a later validation may find it valid and make it `validated`: the first report for an
  import is kept and the approval reads it (`InvalidForGood`, `ApprovableIff`, with the run
  `FoundValidTooLate`).
* A catalog version that is given content it had before becomes a draft again, but that draft cannot
  be loaded for validation and its return to draft is not logged (`RestoredContentIsLost`, with the run
  `RestoredDraftIsLost`).
* A draft can pass its checks and still name a supply option that the compiled product snapshot does
  not offer: this happens exactly when a connector rule or a template component gives the straight
  product another role (`SupplyOptionKeptIff`, with the example `RoleHidesSupplyOption`).
* Writing rows as CSV and reading them back loses the rows without content and changes CRLF and CR to
  LF, and nothing else (`RoundTrip`).

## Model

| member | source | states |
|---|---|---|
| UniqueReading.EscapePrefix | apps/backend/src/project-service.ts:138-146 | An escaped string ends at the first bare quote: two texts that begin with escaped strings and a quote begin with the same string. |
| UniqueReading.QuotePrefix | apps/backend/src/project-service.ts:138-146 | The same for quoted strings, whatever follows. |
| UniqueReading.PrintPrefix | apps/backend/src/project-service.ts:138-146 | Texts that are equal and begin with the prints of two values begin with the same value and go on alike; a number or literal must be followed by a delimiter. |
| CanonicalTheorems.CanonicalPrints | apps/backend/src/revision-repository.ts:217-225 | The recursive printer that sorts the keys of each object as it goes prints the value whose keys have been sorted at every depth. |
| CanonicalTheorems.SortedFieldsIff | apps/backend/src/revision-repository.ts:217-225 | Two lists of fields with unique keys are sorted to the same list exactly when they hold the same fields. |
| CanonicalTheorems.SortKeysIff | apps/backend/src/revision-repository.ts:217-225 | Sorting keys at every depth identifies exactly the values that are the same JSON data. |
| CanonicalTheorems.CanonicalIff | apps/backend/src/project-service.ts:138-146 | Canonical texts are equal exactly when the values are the same JSON data, objects taken as maps. |
| CanonicalTheorems.CanonicalPrefixFree | apps/backend/src/revision-service.ts:140-152 | No canonical text of an object, an array or a string is a proper prefix of a canonical text. |
| JsonReader.QuoteReads | apps/backend/src/project-service.ts:138-146 | A reader of JSON strings that follows RFC 8259 and knows nothing of the printer reads a quoted text back to it, whatever follows. |
| JsonReader.EscapeForms | apps/backend/src/project-service.ts:138-146 | Exactly the quotation mark, the backslash and five control characters have two-character escapes; other control characters and lone surrogates have six, in lower case; everything else stands for itself. |
| JsonReader.NumberReads | apps/backend/src/project-service.ts:138-146 | A printed integer is read back by that reader, if no digit follows. |
| JsonReader.PrintReads | apps/backend/src/project-service.ts:138-146 | So is every printed value. |
| JsonReader.CanonicalReads | apps/backend/src/project-service.ts:138-146 | Reading a canonical text consumes all of it and gives the same data, with the keys of every object at any depth in ascending order of their code units: each key is a proper prefix of the next or smaller where they first differ. |
| Sorting.SortKeepsClasses | apps/backend/src/project-service.ts:159-193 | Sorting by a key is stable: the items of one key stay the same and in the same order. |
| Sorting.SortsAgreeIff | apps/backend/src/project-service.ts:159-193 | Two lists are sorted to the same list exactly when, for each key, they hold the same items of that key in the same order. |
| Sorting.ReorderingKeepsClasses | apps/backend/src/project-service.ts:159-193 | With distinct keys, any reordering of a list agrees with it in that sense. |
| FingerprintTheorems.NormalFormIff | apps/backend/src/project-service.ts:159-193 | Normal forms, keys sorted, are equal exactly when the values mean the same: equal up to the order of keys and, at any depth but not directly under `geometry` and `participants`, of strings and of identified objects that are not tied. |
| FingerprintTheorems.FingerprintIff | apps/backend/src/project-service.ts:159-193 | Two calculation inputs have the same fingerprint under one engine version exactly when they mean the same. |
| FingerprintTheorems.ReorderingIsInvisible | apps/backend/src/project-service.ts:159-193 | Any reordering of a sortable collection with distinct identities means the same. |
| FingerprintTheorems.TiedItemsKeepTheirOrder | apps/backend/src/project-service.ts:159-193 | Two items whose identities compare as equal can be swapped without a trace only if they mean the same. |
| FingerprintTheorems.NormalizedIdempotent | apps/backend/src/project-service.ts:159-193 | Normalising twice is normalising once. |
| FingerprintTheorems.NormalizedWellFormed | apps/backend/src/project-service.ts:159-193 | Normalising never makes an object repeat a key. |
| FingerprintMeaning.IdentityIff | apps/backend/src/project-service.ts:170-173 | An object is identified by its `id`, or by its `componentId` if it has no `id` that is a text with something in it. |
| FingerprintMeaning.OrderCounts | apps/backend/src/project-service.ts:159-193 | Directly under `geometry` and `participants`, and in a collection with an item that is neither a text nor an object, inputs have the same fingerprint exactly when their items mean the same one by one. |
| FingerprintMeaning.SwapIsSeen | apps/backend/src/project-service.ts:159-193 | There, two items that do not mean the same cannot change places without another fingerprint. |
| FingerprintMeaning.OrderDoesNotCount | apps/backend/src/project-service.ts:159-193 | Under any other key, texts or identified objects with distinct identities may be reordered without another fingerprint. |
| FingerprintMeaning.EngineVersionCounts | apps/backend/src/project-service.ts:186-193 | Different engine versions give different fingerprints, whatever the inputs. |
| EvidenceTheorems.ExpectedIff | apps/backend/src/export-repository.ts:115-172 | The six recomputed checksums of the parts agree exactly when the parts are the same JSON data. |
| EvidenceTheorems.RevisionRecordIff | apps/backend/src/revision-repository.ts:1124-1181 | The record behind the revision checksum is the same exactly when the covered summary fields and the other checksums are. |
| EvidenceTheorems.SavedVerifies | apps/backend/src/revision-repository.ts:1124-1181 | Every revision that is saved verifies. |
| EvidenceTheorems.VerifiesIff | apps/backend/src/export-repository.ts:115-172 | Of all details with the revision checksum of one that verifies, exactly those verify that hold the same evidence: parts, covered summary fields and checksums. |
| EvidenceTheorems.SaveVerifyAgreement | apps/backend/src/export-repository.ts:115-172 | A reload under a saved revision's checksum verifies exactly when it is what was saved, in any key order. |
| EvidenceTheorems.ChangedRevisionChecksumFails | apps/backend/src/export-repository.ts:115-172 | Changing the revision checksum alone makes verification fail. |
| EvidenceLayout.SnapshotLayout | apps/backend/src/revision-repository.ts:1124-1138 | What stands under each key of the hashed snapshot: the project, the products and relations with the catalog reference, and the rules and templates with the rule set reference. |
| EvidenceLayout.RecordLayout | apps/backend/src/revision-repository.ts:1139-1181 | The record behind the revision checksum has twenty-one keys, and each covered value stands under its own. |
| EvidenceLayout.ChecksumLayout | apps/backend/src/revision-repository.ts:1124-1181 | Which value each of the seven checksums is taken of. |
| RevisionIntegrity.LoadedAsSaved | apps/backend/src/revision-repository.ts:1124-1225 | A saved revision as loaded from its row holds, in all that is covered, what its checksums were computed from, however far it has advanced since. |
| RevisionIntegrity.LoadedMeaning | apps/backend/src/revision-repository.ts:419-456 | A revision is loaded with the name, comment, author, times, references, status and documents of its row, each in its own place. |
| RevisionIntegrity.SavedRevisionsVerify | apps/backend/src/export-repository.ts:115-172 | After any run every saved revision verifies as stored, and of all that could be loaded under its revision checksum exactly the same evidence verifies. |
| RevisionIntegrity.SameFingerprintSameMeaning | apps/backend/src/project-service.ts:186-193 | Two revisions saved in a run carry the same fingerprint exactly when their compiled inputs mean the same calculation. |
| Csv.Scan | packages/catalog-import/src/csv.ts:14-43 | The character loop refines the declarative split: open quotes, cells and records are those given by looking at each character and the text before it, where a boundary is a comma or line break with an even number of quotes before it. |
| Csv.ParseCsv | packages/catalog-import/src/csv.ts:9-49 | Parsing fails as unterminated exactly when the quotes are odd in number and as duplicate when trimmed headers repeat; otherwise it gives the records between boundaries that have content, by header. |
| CsvMeaning.PairBecomesLineFeed | packages/catalog-import/src/csv.ts:9-13 | A carriage return with its line feed becomes one line feed, wherever it stands. |
| CsvMeaning.ReturnBecomesLineFeed | packages/catalog-import/src/csv.ts:9-13 | So does a carriage return alone. |
| CsvMeaning.LineBreaksAreUnified | packages/catalog-import/src/csv.ts:9-13 | Nothing else changes. |
| CsvMeaning.ByteOrderMark | packages/catalog-import/src/csv.ts:9-13 | A byte order mark in front makes no difference. |
| CsvMeaning.UnterminatedIff | packages/catalog-import/src/csv.ts:9-36 | Parsing is refused for an open quote exactly when the text holds an odd number of quotation marks. |
| CsvMeaning.TrimMeaning | packages/catalog-import/src/csv.ts:34-43 | Trimming takes away white space at both ends and nothing else. |
| CsvMeaning.RowMeaning | packages/catalog-import/src/csv.ts:38-49 | A row has exactly the headers as columns, each with the value in the place of its last header of that name, and an empty text where there is none. |
| CsvMeaning.ParsedMeaning | packages/catalog-import/src/csv.ts:9-49 | With an even number of quotes, the first record with a unit that is not white space in some cell names the columns, a repeated name is refused, and each later record of that kind, in order, gives its row. |
| CsvSplit.SplitAtBreak | packages/catalog-import/src/csv.ts:14-43 | At a line break outside quotes the text before and the text after it are read separately. |
| CsvSplit.SplitAtComma | packages/catalog-import/src/csv.ts:14-43 | At a comma outside quotes the record is cut in two cells, and the rest is read as if it stood alone. |
| CsvSplit.SingleCellIff | packages/catalog-import/src/csv.ts:14-43 | A text is one cell exactly when it has no comma or line break outside quotes. |
| CsvSplit.PlainCell | packages/catalog-import/src/csv.ts:14-43 | A cell without quotes reads as it is written and contains no separator. |
| CsvTheorems.NewlinesEncode | packages/catalog-import/src/csv.ts:64-79 | Quoting a cell and unifying line breaks commute, and a quoted cell cannot merge with a neighbouring line break. |
| CsvMeaning.CellMeaning | packages/catalog-import/src/csv.ts:64-70 | A cell is written as it is unless it holds a quotation mark, comma, line feed or carriage return; otherwise it stands in quotes. |
| CsvMeaning.DoubledMeaning | packages/catalog-import/src/csv.ts:64-70 | In quotes each quotation mark stands twice and everything else once. |
| CsvTheorems.ReadAll | packages/catalog-import/src/csv.ts:14-43 | Reading written records gives exactly these records and an empty last line, with no quote left open. |
| CsvTheorems.SurvivingRecords | packages/catalog-import/src/csv.ts:9-49 | Of the records that were written, those that stay are the ones of the rows with content. |
| CsvTheorems.SurvivesIff | packages/catalog-import/src/csv.ts:64-79 | A written record has content exactly when some column of its row prints a unit that is not white space. |
| CsvTheorems.RoundTrip | packages/catalog-import/src/csv.ts:64-79 | Parsing serialised rows gives the rows with content, in order, each cell as printed with CRLF and CR turned into LF, for cells with any mix of quotes, commas and line breaks. |
| ZipArchive.FindEndRecord | apps/backend/src/export-service.ts:24-30 | The backward scan finds the last end-of-directory signature within reach, or there is none. |
| ZipArchive.CheckPlaces | apps/backend/src/export-service.ts:45-55 | One header's signatures, its end, and its local header and data are in place before the directory, or the header is refused; nothing outside the array is read. |
| ZipArchive.CheckHeader | apps/backend/src/export-service.ts:44-65 | A header is passed exactly when it is in place and its name decodes to its local header's name. |
| ZipArchive.BrokenHeader | apps/backend/src/export-service.ts:45-55 | Refusing at the first bad header is right: no list of headers then makes a directory. |
| ZipArchive.RepeatedName | apps/backend/src/export-service.ts:56-62 | Refusing at the first repeated name is right too. |
| ZipArchive.FullChainDecides | apps/backend/src/export-service.ts:66-68 | After the announced number of headers, the place reached and the names seen decide. |
| ZipArchive.CheckDirectory | apps/backend/src/export-service.ts:42-68 | The loop accepts exactly the directories: headers that follow each other from start to end record, with distinct names equal to the local ones, and the three required parts. |
| ZipArchive.CompleteWorkbookArchive | apps/backend/src/export-service.ts:24-68 | For every byte array the check ends, reads within it, and accepts exactly the complete archives. |
| ZipTheorems.OffsetsAscend | apps/backend/src/export-service.ts:43-64 | Each header starts at least 46 bytes after the one before it. |
| ZipTheorems.HeadersTile | apps/backend/src/export-service.ts:43-67 | The headers of an accepted directory tile the range from directory start to end record: every byte in it, and no other, lies in exactly one header. |
| ZipWriter.ReadsLocal | apps/backend/src/export-service.ts:51-55 | A local header of the format reads back as its entry, wherever it stands. |
| ZipWriter.ReadsCentral | apps/backend/src/export-service.ts:45-50 | A central header of the format reads back as its entry and offset, wherever it stands. |
| ZipWriter.ReadsEnd | apps/backend/src/export-service.ts:31-41 | An end record of the format reads back as its counts, place and comment. |
| ZipWriter.FormatIsFaithful | apps/backend/src/export-service.ts:24-68 | The format's records together make a faithful writer. |
| ZipWriter.WrittenAcceptedIff | apps/backend/src/export-service.ts:24-68 | An archive by a faithful writer, with a comment that does not look like an end record, is accepted exactly when it has 1 to 4096 entries with distinct names, the three required ones among them, and is within the size limit. |
| ZipWriter.FormatAcceptedIff | apps/backend/src/export-service.ts:24-68 | For the format without a comment that is the whole condition. |
| ZipWriter.SignatureBytes | apps/backend/src/export-service.ts:24-55 | The bytes that the format's records start with, each written out. |
| ZipWriter.AcceptedWrittenOut | apps/backend/src/export-service.ts:24-68 | The same condition with the part names and the two limits written out. |
| ExportQueue.ExportRepository.Request | apps/backend/src/export-repository.ts:177-312 | A request replays its key, refuses other content or unfit evidence, shares a live artifact of the same evidence, or adds a pending one; the whole new queue and reply are given. |
| ExportQueue.ExportRepository.Claim | apps/backend/src/export-repository.ts:385-403 | A claim fails up to four exhausted jobs and then takes the oldest claimable one with a fresh token and a lease; rows that others lock are skipped. |
| ExportQueue.ExportRepository.Finalize | apps/backend/src/export-repository.ts:405-425 | Only the row of that id, pending and holding that token, becomes ready. |
| ExportQueue.ExportRepository.FailAttempt | apps/backend/src/export-repository.ts:427-436 | Only that row gives its token back, and fails after its third attempt. |
| ExportWorker.RecoverOnce | apps/backend/src/export-service.ts:264-285 | A recovery pass claims at most four jobs and finishes each that renders to a complete archive, and fails the attempt of each other. |
| ExportMeaning.ClaimMeaning | apps/backend/src/export-repository.ts:385-403 | In the columns: a claim takes the earliest pending row, ties by id, of those without a running lease, with fewer than three attempts and not locked, for two minutes under a new token; the rows it gives up had three attempts and no running lease; no other row changes. |
| ExportMeaning.LeaseIsRespected | apps/backend/src/export-repository.ts:385-403 | No claim touches a row whose lease is running. |
| ExportMeaning.EndMeaning | apps/backend/src/export-repository.ts:405-436 | Finishing writes the file and the time into the row held under the token; failing writes the failure with the third attempt and releases the row before; no other row changes. |
| ExportMeaning.RequestMeaning | apps/backend/src/export-repository.ts:177-312 | A first request for good evidence is answered with a pending or ready artifact of its revision and evidence, 200 if ready and 202 if not, or with a new one. |
| ExportMeaning.RefusalMeaning | apps/backend/src/export-repository.ts:177-312 | A first request is refused exactly for the first thing that is wrong with its evidence, and then nothing changes. |
| ExportMeaning.JobMeaning | apps/backend/src/export-service.ts:264-285 | What a pass does with the job it has taken: bytes that are a complete archive make the artifact ready with them; anything else fails the attempt. |
| ExportMeaning.RenderedIsReady | apps/backend/src/export-service.ts:264-285 | After the whole pass, an artifact whose job rendered to a complete archive is ready with these bytes, whatever became of the other jobs. |
| ExportSafety.OldestIsOldest | apps/backend/src/export-repository.ts:385-403 | The chosen row satisfies the condition and none that does is before it in time and id; none is chosen exactly when none does. |
| ExportSafety.ClaimTakes | apps/backend/src/export-repository.ts:385-403 | What a claim changes: exhausted rows that fail, and at most one row, the oldest claimable, which it takes. |
| ExportSafety.StepKeepsInv | apps/backend/src/export-repository.ts:385-436 | One transaction of any worker keeps the invariant of the queue. |
| ExportSafety.RunKeepsInv | database/migrations/20260909120000_stage9_export_artifacts.sql:31-50 | After any run the columns meet the table's constraints, each token is its artifact's last claim, a ready artifact holds a complete archive rendered from its own context, and no two live artifacts share their evidence. |
| ExportSafety.FinishedForever | apps/backend/src/export-repository.ts:405-436 | Ready and failed artifacts never change again, and no artifact changes its captured context. |
| ExportSafety.StaleWorkerChangesNothing | apps/backend/src/export-repository.ts:405-436 | A token that was replaced or cleared never becomes valid again, and its worker changes nothing ever after. |
| ExportSafety.OnlyLastClaimantActs | apps/backend/src/export-repository.ts:405-436 | A finish or failure takes effect exactly when its token is not lost; then it is the last claimant's, with the artifact's own context, and the token is spent. |
| ExportProgress.AtMostSixPerArtifact | apps/backend/src/export-repository.ts:385-436 | However many workers there are, n artifacts see at most 6n effective transactions. |
| ExportProgress.SixIsReached | apps/backend/src/export-repository.ts:385-436 | Six is exact: from the empty queue, one request and three attempts that fail make six. |
| ExportProgress.WornClaim | apps/backend/src/export-repository.ts:385-403 | When only exhausted jobs are pending, a claim returns nothing and fails the next four. |
| ExportProgress.QueueDrains | apps/backend/src/export-repository.ts:385-403 | Once all leases are over and a claim returned nothing, k further claims leave exactly n - 4k of the n pending jobs, or none. |
| ExportProgress.AnsweredOnce | apps/backend/src/export-repository.ts:177-312 | After any run, a request that was answered is answered the same without effect, and refused with other content. |
| ExportProgress.LiveArtifactIsShared | apps/backend/src/export-repository.ts:177-312 | A first request for evidence with a live artifact is given that artifact and adds none. |
| ExportProgress.PassIsRun | apps/backend/src/export-service.ts:264-285 | A recovery pass is a run of the queue, and leaves none of its tokens in use. |
| Idempotency.ReplayIsAnEarlierEffect | apps/backend/src/revision-repository.ts:253-286 | After any run an answer is found for a key exactly when an earlier step has taken effect under it, and it is that step's own response for equal content, and a conflict for other content. |
| ProjectAccess.OnlyWritersChange | apps/backend/src/revision-repository.ts:355-384 | A step that changes a project's draft, calculation or list of revisions is an administrator's, or the owner's in a role other than viewer. |
| ProjectAccess.OthersChangeNothing | apps/backend/src/project-repository.ts:531-577 | Over any run in which none of a project's writers acts on it, its draft, owner, calculation and list of revisions stay as they are. |
| ProjectAccess.ForeignLooksAbsent | apps/backend/src/revision-repository.ts:355-384 | A replacement, a storing or a save on a project that the actor may not write is answered as if the project did not exist, and changes nothing. |
| ProjectDatabase.Database.CreateProject | apps/backend/src/project-repository.ts:966-1054 | A new draft at version 1, pinned to the active catalog and rule set, with its record; or nothing. |
| ProjectDatabase.Database.ReplaceProject | apps/backend/src/project-repository.ts:1056-1180 | The document of the expected version is replaced and the version grows by one; or nothing changes. |
| ProjectDatabase.Database.BeginCalculation | apps/backend/src/project-service.ts:1838-1890 | The reading half: the job is computed from one version's document and catalog, and no table changes. |
| ProjectDatabase.Database.StoreCalculation | apps/backend/src/project-repository.ts:1281-1410 | The storing half: the calculation replaces the current one only if the project is still at the version that was read. |
| Transactions.CreateMeaning | apps/backend/src/project-repository.ts:966-1054 | Creating succeeds exactly for a role other than viewer, an unused key and an active catalog; the project is the creator's, at version 1, with the document and the active pair. |
| Transactions.ReplaceMeaning | apps/backend/src/project-repository.ts:1056-1180 | Replacing gives the document, the next version and the active pair to that project only, and leaves owner, calculations and revisions alone. |
| Transactions.BeginMeaning | apps/backend/src/project-service.ts:1838-1890 | The job carries the caller, the key, the version and the pair that were read, and the input that was compiled from that document, with its fingerprint and reference rows. |
| Transactions.StoreMeaning | apps/backend/src/project-repository.ts:1281-1410 | The stored calculation is the current one, not stale, with the job's run, fingerprint, input and result. |
| Transactions.ReplacedIsStale | apps/backend/src/project-repository.ts:1412-1503 | Once its draft has been replaced, a calculation is shown as stale. |
| Answers.ReplaceAnswered | apps/backend/src/project-repository.ts:1056-1180 | Which answer a replacement is given: forbidden to a viewer; not found, for a project that is not there or not the actor's to write; the stored response or a conflict for a used key; stale for another version; and success with the next version. |
| Answers.BeginAnswered | apps/backend/src/project-service.ts:1838-1890 | Which answer a calculation is given, up to an inactive catalog, a stale version, a draft that does not compile and an engine that fails, in that order. |
| Answers.StoreAnswered | apps/backend/src/project-repository.ts:1281-1410 | Which answer its storing is given. |
| Refusals.OvertakenSaveNeverSucceeds | apps/backend/src/revision-repository.ts:1033-1052 | A save whose expected draft version or latest number has been overtaken is refused as stale, now and after any run. |
| Refusals.RefusedSaveLater | apps/backend/src/revision-repository.ts:1018-1122 | A refused save leaves no trace: after any run the same save with the same key succeeds exactly when the actor may write, the key is unused and its checks pass then. |
| Refusals.SavedOnRepeat | apps/backend/src/revision-repository.ts:1018-1122 | A run from the start in which a save between the halves of a calculation is refused and succeeds on repeat with the same key. |
| ProjectDatabase.Database.InsertBomLines | apps/backend/src/revision-repository.ts:1228-1283 | One row per line of the result, numbered in order, is added and nothing else. |
| ProjectDatabase.Database.InsertWarnings | apps/backend/src/revision-repository.ts:1284-1315 | One row per warning, numbered in order, is added and nothing else. |
| ProjectDatabase.Database.SaveRevision | apps/backend/src/revision-repository.ts:1018-1348 | A save adds the revision with its checksums, its line and warning rows, its saved event and its record; or nothing. |
| Transactions.SaveMeaning | apps/backend/src/revision-repository.ts:1124-1225 | A save that succeeds, in any state, adds one revision that holds, field by field, the request's name, comment and version, the actor and the time, the current calculation's run, fingerprint, engine version, input and result, the stored document and the counts of its warnings; its number, status, checksums, event and record are given too. |
| Transactions.SavedRows | apps/backend/src/revision-repository.ts:1228-1315 | The same save adds one row for each line and each warning of the result, numbered from 0 in their order, and keeps the others. |
| Transactions.RevisionsAreAsRequested | apps/backend/src/revision-repository.ts:1018-1348 | After any run, the name, comment, version, run and fingerprint of each revision are those of the request recorded under its author's save key, whose response names that revision. |
| Answers.SaveAnswered | apps/backend/src/revision-repository.ts:1018-1122 | After any run, which answer a save is given: stale if the draft has another version, another number is the latest of the project, or the named calculation is of another draft or fingerprint; invalid if the named calculation is not the current one; and otherwise success with the next number, whatever the comparisons of stored evidence. |
| RevisionLifecycle.AdvancesIff | apps/backend/src/revision-repository.ts:1474-1546 | In every reachable state a revision can advance exactly when its number and fingerprint are named, nothing supersedes it, the log shows it has come as far as the action asks, and for an approval the saved result is ready and has no blocking warning. |
| ProjectDatabase.Database.Transition | apps/backend/src/revision-repository.ts:1376-1606 | A check or approve advances the row, logs the event, adds the approval and the record; or records why it was rejected; or changes nothing. |
| ProjectDatabase.Database.RecordRejectedAttempt | apps/backend/src/revision-repository.ts:915-981 | A rejection is added unless the actor cannot see the history or the attempt has one already; if that one has other content, the key is in conflict. |
| ProjectDatabase.Database.CheckOrApprove | apps/backend/src/revision-service.ts:307-455 | The service's call: refused without the capability, with the rejection recorded, and otherwise the transition, whose rejections stay to be recorded. |
| Transactions.AdvanceMeaning | apps/backend/src/revision-repository.ts:1547-1606 | What a successful check or approve writes: status and time of the one row, the event with its prior and resulting status, the approval, the response and the record. |
| Answers.TransitionAnswered | apps/backend/src/revision-repository.ts:1376-1546 | After any run, which answer the first call of a check or approve under a key is given: forbidden, not found, stale, invalid or success, told from the role, what was saved, what supersedes it, and how often the log shows it advanced. |
| Transactions.RejectionMeaning | apps/backend/src/revision-repository.ts:1459-1546 | A rejection is logged with its reason, its content and the status that the revision had, and nothing else changes. |
| Transactions.RejectedIsAnsweredAlike | apps/backend/src/revision-repository.ts:1426-1450 | After any run, the same call is given the same refusal without effect, and other content under its key a conflict. |
| Transactions.VisibleIff | apps/backend/src/revision-repository.ts:915-981 | The history of a revision is visible to all roles but designers, and to a designer for an own project. |
| ProjectProvenance.RunKeepsProvenance | apps/backend/src/project-repository.ts:1056-1180 | Pending jobs, calculations and revisions trace to the document and catalog of their draft version, over every interleaving. |
| ProjectProvenance.RevisionsHaveProvenance | apps/backend/src/revision-repository.ts:1033-1124 | After any run each saved revision joins the snapshot of a draft version with the engine's result for the input that was compiled from that version's document and catalog. |
| ProjectProvenance.FreshCalculationIsCurrent | apps/backend/src/project-repository.ts:1412-1503 | A current calculation shown as not stale was computed from the document and pair that the project has now. |
| ProjectProvenance.EvidenceIsConsistent | apps/backend/src/revision-repository.ts:1082-1122 | Once the draft versions agree, none of the save's comparisons of stored evidence can fail. |
| ProjectProvenance.SaveSucceedsIff | apps/backend/src/revision-repository.ts:1032-1122 | In every reachable state a save passes its checks exactly when its expected versions, run id and fingerprint are the current ones. |
| RevisionLifecycle.RunKeepsLifecycle | apps/backend/src/revision-repository.ts:1376-1606 | After any run: numbers are distinct, each revision's successful events replay to its status and times, approvals are unique to approved revisions, these were ready without blocking warnings, and the summary counts exactly the saved warning rows. |
| RevisionLifecycle.NewNumberIsNext | apps/backend/src/revision-repository.ts:1040-1052 | A new revision's number is the previous largest of its project, plus one. |
| RevisionLifecycle.RowMoves | apps/backend/src/revision-repository.ts:1474-1546 | A step leaves a revision row alone or advances it by one status, and then it is the latest and a reviewer asked. |
| RevisionLifecycle.SaveSupersedes | apps/backend/src/revision-repository.ts:1139-1181 | A save supersedes every earlier revision of its project. |
| RevisionLifecycle.SupersededStandsStill | apps/backend/src/revision-repository.ts:1450-1601 | A superseded revision never changes again. |
| RevisionLifecycle.PayloadsNeverChange | apps/backend/src/revision-repository.ts:1124-1225 | Saved payloads, numbers and projects never change, and no revision is removed. |
| RevisionLifecycle.OfferedIffPossible | apps/backend/src/revision-service.ts:183-206 | Check or approve is offered to an actor exactly when the transition with the revision's own number and fingerprint and an unused key succeeds. |
| RevisionLifecycle.OfferedIffPossibleInRuns | apps/backend/src/revision-service.ts:183-206 | The same in every state that any run reaches. |
| RevisionLifecycle.OfferedMeaning | apps/backend/src/revision-service.ts:183-206 | After any run, a check is offered exactly to a reviewer or administrator, on a revision that nothing supersedes and that has only been saved; an approval on one that has been checked, whose saved result is ready and has no warning that blocks. |
| Idempotency.AtMostOnce | apps/backend/src/revision-repository.ts:253-286 | Over any run each scope and key takes effect at most once, and exactly once if its record appears. |
| Idempotency.RepeatIsAnswered | apps/backend/src/revision-repository.ts:253-286 | A permitted repeat of a recorded key changes nothing and is given the stored response, or a conflict for other content. |
| Idempotency.RepeatsGetTheSameResponse | apps/backend/src/revision-repository.ts:253-286 | Whatever happens in between, a permitted repeat is given the response that the first call was given. |
| Idempotency.RejectedNeverSucceeds | apps/backend/src/revision-repository.ts:1376-1606 | An attempt recorded as rejected before any success never succeeds later. |
| Idempotency.OneRejectionPerAttempt | apps/backend/src/revision-repository.ts:915-981 | Each attempt has at most one rejected event, although repository and service both record it. |
| Idempotency.ServiceRecordsNothingNew | apps/backend/src/revision-service.ts:307-455 | The service's own recording of a rejection that the repository reported adds nothing and conflicts with nothing. |
| Refusals.ForbiddenRecordedIff | apps/backend/src/revision-service.ts:307-455 | A call without the capability is refused, and recorded exactly when the actor can see the history. |
| Refusals.ForbiddenThenPromoted | apps/backend/src/revision-service.ts:307-455 | After the actor has been made a reviewer, and any run in between, the same call succeeds exactly when the revision can advance, the key is still unused, and the actor could not see the history when it was refused. |
| Refusals.RefusedThenAccepted | apps/backend/src/revision-service.ts:307-455 | A run from the start after which a check is refused and later succeeds with the same key. |
| Paging.LimitedMerge | apps/backend/src/revision-repository.ts:764-811 | Limiting both sides before merging does not change the limited merge. |
| Paging.SortIsMerge | apps/backend/src/revision-repository.ts:764-811 | Sorting the two sorted queries together is merging them. |
| Paging.ListIsLimitedHistory | apps/backend/src/revision-repository.ts:764-811 | A listing is the limited descending history below the cursor. |
| Paging.BelowIsRest | apps/backend/src/revision-repository.ts:764-811 | Below the number of the k-th row come exactly the rows after it. |
| Paging.PageAt | apps/backend/src/revision-service.ts:227-253 | A page shows the next rows up to the limit, and its cursor goes on exactly there unless nothing is left. |
| Paging.PagesPartitionHistory | apps/backend/src/revision-service.ts:227-253 | Following the cursors ends and shows every revision of both schema versions exactly once, in strictly descending order. |
| CatalogRepository.Repository.SaveDraft | apps/backend/src/catalog-repository.ts:453-572 | New content makes a new version or turns an unapproved one back into a draft, and is imported once per content; the whole new state is given. |
| CatalogRepository.Repository.ClearCandidate | apps/backend/src/catalog-repository.ts:97-127 | The rows of the candidate, and no others, are removed. |
| CatalogRepository.Repository.MaterializeCandidate | apps/backend/src/catalog-repository.ts:129-426 | The candidate's rows are those of the bundle, all drafts. |
| CatalogRepository.Repository.SaveValidation | apps/backend/src/catalog-repository.ts:584-740 | A report is kept once per import; a valid draft becomes validated and is materialised. |
| CatalogRepository.Repository.Approve | apps/backend/src/catalog-repository.ts:742-821 | Approval asks for a validated version of exactly that hash with a valid report, and is unique per version and hash. |
| CatalogRepository.Repository.RetireRows | apps/backend/src/catalog-repository.ts:883-895 | The active rules, templates and rule sets of a version are retired or archived. |
| CatalogRepository.Repository.Activate | apps/backend/src/catalog-repository.ts:823-934 | The other active versions of the scope are archived with their rows, and this one and its rows become active, together. |
| CatalogRepository.Repository.Archive | apps/backend/src/catalog-repository.ts:936-978 | An active version and its rows are archived, or nothing changes. |
| CatalogMeaning.ImportIntoVersion | apps/backend/src/catalog-repository.ts:453-572 | Importing into a version that exists: refused if it is active or archived, without effect on versions for the same content, and otherwise a fresh draft of the new content, with its earlier imports superseded. |
| CatalogMeaning.ImportNewVersion | apps/backend/src/catalog-repository.ts:453-572 | Importing a new version adds a fresh draft, its import and a line of the log. |
| CatalogMeaning.LoadedIsCurrent | apps/backend/src/catalog-repository.ts:574-582 | After any run, what is loaded for a validation is content of the version's present hash. |
| CatalogMeaning.ValidationMeaning | apps/backend/src/catalog-repository.ts:584-740 | When a validation is accepted, and what it writes about import, report and version. |
| CatalogMeaning.ApprovalMeaning | apps/backend/src/catalog-repository.ts:742-821 | An approval that is added names the version, its report and its hash, and only the version's status and approved hash change. |
| CatalogMeaning.ActivationMeaning | apps/backend/src/catalog-repository.ts:823-934 | After any run from the empty catalog, an approved version is activated exactly when its content hash is named; otherwise nothing changes. |
| CatalogMeaning.NotActivated | apps/backend/src/catalog-repository.ts:823-934 | A version in another state is not activated, though an active one may be named again. |
| CatalogMeaning.ArchiveMeaning | apps/backend/src/catalog-repository.ts:936-978 | Exactly an active version can be archived on its own. |
| CatalogLog.EveryStepIsLogged | apps/backend/src/catalog-repository.ts:453-978 | After any run, the next transaction logs one line for each version that it adds or moves, with the status before and after; only a version that becomes a draft again may have none. |
| CatalogLog.LogTellsStatus | apps/backend/src/catalog-repository.ts:453-978 | After any run, the last line about a version that is not a draft leads to the status that it has. |
| CatalogLifecycle.ValidatingTwice | apps/backend/src/catalog-repository.ts:584-740 | A second validation of the same content with the same verdict is accepted and changes nothing. |
| CatalogLifecycle.ArchiveOthersVersions | apps/backend/src/catalog-repository.ts:861-896 | Exactly the other active versions of the scope become archived. |
| CatalogLifecycle.StepKeepsEvidence | apps/backend/src/catalog-repository.ts:742-821 | Every transaction keeps this: past its draft a version's validated hash is its content hash, and past validation it has a valid report and an approval of exactly that hash. |
| CatalogLifecycle.StepKeepsOneActive | apps/backend/src/catalog-repository.ts:823-934 | Every transaction keeps at most one active version per scope. |
| CatalogLifecycle.StepKeepsInStep | apps/backend/src/catalog-repository.ts:823-934 | Every transaction keeps rule sets, rules and templates in step with their version. |
| CatalogContent.StepKeepsRows | apps/backend/src/catalog-repository.ts:129-426 | The rows of a version past its draft stay those of the content they were materialised from. |
| CatalogContent.StepKeepsContent | apps/backend/src/catalog-repository.ts:584-740 | Every transaction keeps the rows of each version past its draft materialised from content of its hash. |
| CatalogContent.RunKeepsInv | apps/backend/src/catalog-repository.ts:453-978 | All of these after any sequence of transactions. |
| CatalogContent.ActiveContentNeverChanges | apps/backend/src/catalog-repository.ts:453-978 | The content and rows of a version that is or was active never change. |
| CatalogContent.ApprovableIff | apps/backend/src/catalog-repository.ts:742-821 | A validated version can be approved exactly when its report is valid and that content was not approved in it before. |
| CatalogContent.InvalidForGood | apps/backend/src/catalog-repository.ts:584-821 | Content first reported invalid is never approved or active in that version, whatever later validations find. |
| CatalogContent.FoundValidTooLate | apps/backend/src/catalog-repository.ts:584-821 | A run from the empty catalog: content found invalid and then valid is validated, and its approval is refused. |
| CatalogContent.RestoredContentIsLost | apps/backend/src/catalog-repository.ts:453-582 | A draft given new content can be loaded, and its return to draft is logged, exactly when that content was not imported into the version before. |
| CatalogContent.RestoredDraftIsLost | apps/backend/src/catalog-repository.ts:453-582 | A run from the empty catalog: content that is replaced and restored is a draft that cannot be loaded, with two drafts in the log. |
| Preflight.SelectionEvidence | apps/backend/src/project-service.ts:815-845 | A selection rule is found exactly when an active one matches every part of the selection, and then one of those. |
| Preflight.AnchorEvidence | apps/backend/src/project-service.ts:847-871 | An anchor rule is found exactly when an active one allows that product on that substrate. |
| ReadyDrafts.AnchorIssueIff | apps/backend/src/project-service.ts:1086-1100 | An anchor of the catalog is objected to exactly when no rule of the anchor_substrate kind that is allowed, names its code, and has the route's substrate as its target's, or as its source's if the target has none, is in the catalog: a prohibition is no evidence. |
| ReadyDrafts.StraightIssueIff | apps/backend/src/project-service.ts:904-961 | A good straight product is objected to exactly when no allowed selection rule names its code with the route's system, sizes, material and finish. |
| ReadyDrafts.SanitizedMeaning | apps/backend/src/project-service.ts:828 | In dimension ids letters, digits, dots, underscores and dashes stay and everything else becomes a dash. |
| Preflight.ComponentEvidence | apps/backend/src/project-service.ts:873-888 | A component is found exactly when the template has that product in that role. |
| Preflight.SelectionProblems | apps/backend/src/project-service.ts:904-961 | Exactly the faults of the route's selection, straight product and supply option. |
| Preflight.GeometryProblems | apps/backend/src/project-service.ts:962-1000 | Exactly the faults of geometry, fittings and endpoints. |
| Preflight.ChoiceProblems | apps/backend/src/project-service.ts:1001-1024 | Exactly the support choices that are missing. |
| Preflight.ProductProblems | apps/backend/src/project-service.ts:1025-1050 | Exactly the support products that are missing or cannot be ordered. |
| Preflight.SupportProblems | apps/backend/src/project-service.ts:1051-1114 | Exactly the faults of WSTB, support, anchor and template products. |
| Preflight.TemplateProblems | apps/backend/src/project-service.ts:1115-1151 | Exactly the mismatches of the template's type and system. |
| Preflight.TemplateMaterialProblems | apps/backend/src/project-service.ts:1152-1217 | Exactly the mismatches of the template's WSTB and anchor, and an override without baseline. |
| Preflight.RouteProblems | apps/backend/src/project-service.ts:903-1218 | Exactly the faults of a route. |
| Preflight.RouteIssues | apps/backend/src/project-service.ts:901-1218 | Exactly the issues of all routes, or that there is none. |
| Preflight.ConnectionIssues | apps/backend/src/project-service.ts:1219-1241 | Exactly the issues of connections. |
| Preflight.AccessoryIssues | apps/backend/src/project-service.ts:1242-1252 | Exactly one issue for each accessory. |
| Preflight.ManualIssues | apps/backend/src/project-service.ts:1253-1284 | Exactly the issues of manual catalog items. |
| Preflight.PreflightIssues | apps/backend/src/project-service.ts:890-1286 | The issues found are exactly those warranted, so there is none exactly when the draft is ready. |
| ReadyDrafts.SoundIff | apps/backend/src/project-service.ts:903-1218 | A route has no fault exactly when it fits: what that means is written out in the columns of catalog and draft, for selection, supply option, geometry, ends, support, anchor, WSTB and template. |
| ReadyDrafts.ReadyIff | apps/backend/src/project-service.ts:890-1286 | A draft has no issue exactly when it has routes, all of them fit, connections need no material or correction, there are no accessories, and each manual catalog product is for sale in the item's unit. |
| Compilation.RelationList.Allow | apps/backend/src/project-service.ts:1300-1316 | A product is allowed in a context once: the relation is added unless its key is there. |
| Compilation.AllowTemplate | apps/backend/src/project-service.ts:1427-1447 | The components of the selected template are allowed in their roles, anchors and WSTB excepted. |
| Compilation.AllowRoute | apps/backend/src/project-service.ts:1345-1447 | A route's grants are those of its selection, support, anchor, WSTB and template, in order, each with its evidence. |
| Compilation.CollectRelations | apps/backend/src/project-service.ts:1288-1638 | The relations of a draft are the grants of its routes and manual items, each once. |
| Compilation.CalculationParts | apps/backend/src/project-service.ts:1288-1638 | The compiled relations, the supply, WSTB and compatibility rules, and the routes' products and supply options. |
| CompiledDrafts.RelationRests | apps/backend/src/project-service.ts:1288-1638 | Every compiled relation rests on something that says so: the first rule of the catalog that allows a route's own straight product, or its anchor on its substrate, a component of a route's template in that role, or a manual item. |
| CompiledDrafts.ComponentIsAllowed | apps/backend/src/project-service.ts:1427-1447 | Each component of a route's template is allowed exactly once, in the context of its role, anchors and WSTB products excepted. |
| CompiledDrafts.RelationNamed | apps/backend/src/project-service.ts:1300-1316 | The id of a relation is written out from context, project and product. |
| CompiledDrafts.OneWstbRule | apps/backend/src/project-service.ts:1448-1464 | Each route has exactly one WSTB rule, of one piece, two pieces, or the route's own number of pieces per support. |
| CompiledDrafts.SupplyRulesCompiled | apps/backend/src/project-service.ts:1318-1338 | There is a supply rule exactly for the usable straight sections of 3000 or 6000 mm, and the option it names is written out. |
| CompiledDrafts.CompatibilityRuleCompiled | apps/backend/src/project-service.ts:1590-1602 | One compatibility rule lists the ids of all relations in order, if there are any. |
| CompiledDrafts.RoutesCompiled | apps/backend/src/project-service.ts:1345-1500 | Routes keep their order, each with its own straight product and supply option. |
| Compilation.ConnectorRoles | apps/backend/src/project-service.ts:394-418 | The roles that connector rules give, a later rule overriding an earlier one. |
| Compilation.ContextualRoles | apps/backend/src/project-service.ts:394-418 | The role of each product that connector rules and template components determine. |
| CompiledDrafts.ConnectsIff | apps/backend/src/project-service.ts:382-408 | A connector rule is for the first product with its target code if it is usable, or, if no product has the code, for each usable product that agrees with the selector in every attribute. |
| CompiledDrafts.RoleMeaning | apps/backend/src/project-service.ts:394-422 | The role of a product: what the last template component that names one says; else connector, if a connector rule is for it; else its category. |
| CompiledDrafts.SnapshotMeaning | apps/backend/src/project-service.ts:424-478 | A product's snapshot has its id, that role, and its supply option exactly if it is a straight section by role and of a supplied length. |
| CompiledDrafts.SnapshotsMeaning | apps/backend/src/project-service.ts:424-478 | The snapshots are those of the usable products. |
| Compilation.KeysDiffer | apps/backend/src/project-service.ts:1300-1316 | The key of a relation determines its context and product. |
| Compilation.IdsDiffer | apps/backend/src/project-service.ts:1300-1316 | So does its id, within a project. |
| CompilationTheorems.RelationsAreGrants | apps/backend/src/project-service.ts:1300-1316 | The relations represent the grants: each granted context and product exactly once, with the first evidence given, and nothing else. |
| CompilationTheorems.ReadyDraftCompiles | apps/backend/src/project-service.ts:890-1638 | A draft without issues compiles with nothing missing: every value the compiler casts is present, an override of anchors has its baseline, each selected straight, support, anchor, WSTB and manual catalog product has exactly one relation in its context, ids are distinct and are those the rule lists, and each such product is in the snapshots. |
| CompilationTheorems.SupplyOptionHasRule | apps/backend/src/project-service.ts:1318-1338 | The supply option that a route of a ready draft selects has its rule. |
| CompilationTheorems.SupplyOptionKeptIff | apps/backend/src/project-service.ts:424-478 | The product snapshot offers that option exactly when nothing gives the straight product another role. |
| CompilationTheorems.RoleHidesSupplyOption | apps/backend/src/project-service.ts:424-478 | A concrete ready draft whose supply option is not in the snapshot. |

## Left out

Parameters and representations:

- SHA-256 is an injective function; UTF-8 decoding, `localeCompare`, lower-casing, the renderer, the calculation engine and `randomUUID` are parameters or numbered choices, with the assumptions stated where they are used.
- Request hashes are represented by the requests, and generated row ids by positions or unused ids.
- Each transaction is one atomic step: isolation anomalies, advisory locks and the SQL text are not modelled; rows that another claim has locked are a parameter of the claim.
- JSON `undefined`, numbers that are not integers, and objects with repeated keys.
- Retained projects that have no draft document, and the status of a project.
- RevisionIntegrity.SavedRevisionsVerify: how documents are written as JSON is a parameter, of which it is assumed what the schemas promise; how PostgreSQL stores JSON is not modelled beyond the order of keys.
- FingerprintTheorems.ReorderingIsInvisible: asks for distinct identities under the comparison; what happens to tied ones is `TiedItemsKeepTheirOrder`.
- ProjectDatabase.Database.BeginCalculation: the look for a replay and the reading of the context are one step, and both snapshot errors are one.
- CompiledDrafts.OneWstbRule: the schema's promise that route ids are distinct is asked for.
- ProjectDatabase.Database.CreateProject: the graph rows that mirror the document are not modelled, nor the database's conflict on project codes.
- ProjectDatabase.Database.ReplaceProject: the same two things are not modelled.
- ProjectDatabase.Database.StoreCalculation: the table of a draft's warnings and project audit events are not modelled.
- ProjectDatabase.Database.SaveRevision: project audit events and the audit rows of rejected saves are not modelled.
- CatalogRepository.Repository.MaterializeCandidate: products, connections and other facts of a bundle are one value; rule sets, rules and templates have their own rows.
- CatalogRepository.Repository.SaveDraft: source observations and conflict resolutions are not modelled, nor the check that the caller is an administrator.
- CatalogRepository.Repository.SaveValidation: the same three things are not modelled.
- CatalogRepository.Repository.Approve: the check that the caller is an administrator is not modelled.
- CatalogRepository.Repository.Activate: the check that the caller is an administrator is not modelled.
- CatalogRepository.Repository.Archive: the check that the caller is an administrator is not modelled.
- ExportQueue.ExportRepository.Finalize: the length, hash and media type columns of the content are not modelled.
- ExportQueue.ExportRepository.Request: who may read a revision is decided before the request is modelled.
- Preflight.PreflightIssues: issues are specified as a set, without their order and messages.
- Compilation.CalculationParts: geometry, manual policies and metadata are copied by the code and are not modelled; nor are explicit joint rules and the other fields of snapshots.

Not modelled at all:

- HTTP routes, sessions, logging, metrics, the front end and the deployment scripts.
- The engine's formulas, the workbook's contents, and the import of catalogs from spreadsheets.
- Schema validation of requests; users, and the administration of their roles.
