# TraceHub: a verified model

TraceHub replicates Codex session files (append-only JSONL) from many devices to one server. A client asks the
server for a checkpoint per session (an offset and the SHA-256 of everything before it), compares it with its own
file, cuts the rest at line boundaries into chunks and uploads them encrypted, each with a digest of the whole file
up to its end. The server archives the ciphertext, derives an index of events from it, serves the index page by
page, and can rebuild or read back anything from the archive.

This project models that system and proves that it does what it is for. `dafny verify dfyconfig.toml` checks it.

## What is proved

The four tables of the store are a value, `Tables.Db`; `Store.Store` is the class whose methods update them in
place, each proved equal to a function on that value (`Tables.Put`, `Tables.Delete`, `Paging.PageOf`, ...). The
theorems are about those functions, so they hold of the methods.

* **One invariant, every history.** `Invariant.Inv` says that a session's chunks decrypt, tile [0, next offset)
  with whole lines, and that row, hash state, events and search rows are what one reading of the archive gives.
  `Protocol.ExecutionKeepsInvariant`: every upload, valid or not, every delete, restart and run keeps it.
* **Agreement.** `Protocol` is a state machine over any number of runs, with stale plans, rewritten files, lost
  replies, redelivered requests, deletes and restarts. `Protocol.AcknowledgedToRun`: an acknowledgement, new or
  duplicate, means the archive starts with what that run has read, unless the session was deleted since the plan.
  `StalePlan` shows that the exception is real, `Protocol.DuplicateAgreesExactly` what the server would have to
  compare to close it, and `Protocol.FreshAgrees` that no history is ever joined to another one. What the methods
  of `Syncer` and `Backfill` do are steps of this machine (`WholeRun.RunIsExecution`, `Protocol.BackfillIsRestart`).
  The repository's README promises that a rewritten prefix fails explicitly: so it does at the checkpoint
  (`Recovery.RewrittenIsRefused`), but not for a duplicate in a stale run whose session was deleted and re-uploaded.
* **Convergence.** `Recovery.CrashConvergence`: whatever interrupted runs leave behind, one undisturbed run
  archives every file to its last newline and reports exactly the growth; `Convergence.RerunUploadsNothing`.
* **The index is one parse.** `Records.ParseChunkComposes` and `Queries.IndexIsOneParse`: chunk boundaries leave
  no trace in the index, failures included.
* **Resumable reading.** `LiveReading.ReaderGetsEverything`: following cursors while uploads go on yields every
  event once, with its complete text, in a bounded number of pages.
* **The chunker** is resumable, prefix-stable, lossless and sparing (`Chunker.CutResumes`, `AppendKeepsChunks`,
  `CutIsGood`), and nothing it emits fails a guard of the server (`Convergence.GoodPassesGuards`).
* **Read-back.** Backfill, export and tool-output locators agree with the incremental state (`Backfill`, `Admin`,
  `Locators`), but for one kind of record: `ParseChunk` decodes the last `payload` of a line on its own, `ToolOutput`
  all of them merged, so a line that repeats `payload` with a mistyped field is indexed as a tool output and refused
  by the handler (`MistypedOutput`). `Locators.ToolOutputReadsBack` says exactly when.
* **Signatures.** The signed text of a request is order-independent and uniquely decodable (`Auth`), and covers the
  trimmed first value of every header field of the service (`SignedFields.TextCoversFields`).
* **Edges.** What is indexed of a record (`Indexing`), which cursors are accepted and what a page holds (`Cursors`),
  which uploads are refused and why (`Guards`), and what a failed run counts (`Accounting`) are stated on records,
  stored events, requests and chunks themselves.

## How it is modelled

* SHA-256 is a left fold over bytes with an uninterpreted step and digest (`Hashing.Hasher`), so resuming a stored
  hash state is proved, not assumed. Freedom from collisions is never assumed globally, which would be
  unsatisfiable for 64-character digests: it is a hypothesis on the pairs of texts whose digests a step compares
  (`Protocol.CollisionFree`). The invariant, paging, read-back and convergence from a given state need none.
* Encryption is a pair of uninterpreted functions; that a key pair undoes it, and that a record of at most 64 MiB
  still fits a request when encrypted, are hypotheses where the client's own uploads have to be accepted
  (`Convergence.Working`). Encrypting is a function of recipient and text; that a chunk sent again has another
  ciphertext is covered by `Server.ReplayIsIdempotent`.
* JSON decoding is an uninterpreted function from a line to typed views of it (`Records.Decoder`); everything the
  code does with those views is written out. `Records.Coherent` is the one promise made of every line: decoded
  message text is valid UTF-8. That two views of one payload agree is not assumed, because they need not.
* Text and offsets are bytes and unbounded integers: no offset, size or count of the model comes near 2^63.
* A run's uploads are atomic steps, as the store's transactions are; the bytes a run reads are arbitrary at each
  step, which covers files that are appended to or rewritten at any moment. In `Syncer` a source's contents are its
  bytes as the run comes to read them, and the network settles for each request whether it is sent and heard.
* The store is a single connection, so each method sees one state. `ORDER BY` is a stable sort proved to sort.
* Where the code ranges over a map (checkpoints, header fields) the model picks keys in no particular order.
* Source types such as `"tool_output"` are datatype constructors; other type strings are kept as a name.

## Model

| member | source | states |
|---|---|---|
| Records.ParseChunk | internal/codex/codex.go:228-271 | the loop gives, for any text, base offset and session, the result of parsing its lines in order: first failure with its position, else metadata, events and latest timestamp |
| Records.AddLine | internal/codex/codex.go:239-268 | one record adds exactly its own contribution to the result so far, or fails with its own error |
| Records.ParseChunkComposes | internal/codex/codex.go:228-271 | parsing a text equals parsing the two halves of any split at a line boundary, the second from its own offset, and combining; failures and their positions included |
| Records.EventPositions | internal/codex/codex.go:252-264 | events sit at the byte positions of their records, strictly increasing, never at 0; metadata comes exactly from a chunk at offset 0; texts are valid UTF-8 |
| Records.EventSource | internal/codex/codex.go:263-268 | every event comes from the line at its own byte position, by the rules of `extractEvent` |
| Indexing.EventDescribes | internal/codex/codex.go:294-328 | every event of lines that parse is what the record at its byte position says: a user or agent message of an `event_msg` with time, phase and text, or a tool call or tool output of a `response_item` with time, tool name and status |
| Indexing.RecordIsIndexed | internal/codex/codex.go:294-328 | and every such record has exactly that event at its position |
| Indexing.ParsesExactly | internal/codex/codex.go:228-271 | lines parse exactly when each decodes, the first at byte 0 names the session, and every payload that is looked at decodes; else the error is that of the first record that fails, at its position |
| Indexing.SessionMetaDescribes | internal/codex/codex.go:330-367 | each metadata field comes from its own field of the first record; the session id is `id`, or `session_id` where that is empty, and looks like a UUID |
| Indexing.LastActivityIsLatest | internal/codex/codex.go:249-251 | the last activity of lines that parse is the time of one of the records, or empty, and no record is later |
| Basics.BeforeIsByteWise | internal/codex/codex.go:249-251 | times and names are ordered by the first byte in which they differ, a proper prefix first |
| Records.ToolOutputAccepts | internal/codex/codex.go:273-328 | `ToolOutput` accepts the record of an event classified as a tool output exactly when the record, decoded with its output field, still has a tool-output type; when both decodings agree on the type, it accepts exactly the tool outputs |
| Chunker.Reader.ReadSlice | internal/codex/codex.go:399-403 | a part of the line of at most the buffer size: ended by the first newline, by a full buffer of exactly that size, or by the end of the file |
| Chunker.ReadLine | internal/codex/codex.go:399-417 | the next line of the file, or its unterminated rest, or a refusal above 64 MiB, whatever the buffer boundaries; a returned line is consumed exactly |
| Chunker.CutIsGood | internal/codex/codex.go:185-225 | what is emitted joins to a prefix of the text, to its longest newline-terminated prefix when no record is above the limit (and only then is the end reached); each chunk is at most 4 MiB or one record; k chunks carry at least floor(k/2) * (4 MiB + 1) bytes |
| Chunker.CutResumes | internal/codex/codex.go:181-225 | restarting at the end of any emitted chunk yields exactly the remaining chunks and the same outcome |
| Chunker.AppendKeepsChunks | internal/codex/codex.go:181-225 | appending to a file keeps every chunk but the last, whose new version starts with the old; behind a record above the limit appending changes nothing |
| Chunker.GroupPairs | internal/codex/codex.go:209-221 | any two consecutive chunks together exceed the target size |
| Utf8.TruncateUtf8 | internal/store/store.go:593-602 | the loop terminates with the cut of `TruncateCuts`, for any bytes |
| Utf8.TruncateCuts | internal/store/store.go:593-602 | on valid UTF-8 (section 4 of RFC 3629): the longest valid prefix of at most `max` bytes, at most three bytes short of it, with a valid remainder |
| Scalars.ValidIsEncoding | internal/store/store.go:593-602 | what the cut takes for valid is exactly the encodings of sequences of Unicode scalar values, each in its shortest form |
| Store.Store.PutChunk | internal/store/store.go:259-332 | the transaction yields the state and reply of `Tables.Put`, and leaves no trace when it fails |
| Invariant.PutKeepsInvariant | internal/store/store.go:259-332 | an upload keeps the invariant; is accepted as new exactly when it continues the archive and its digest matches, as duplicate exactly when that chunk is stored; otherwise changes nothing; UNIQUE never fires |
| Store.Store.Checkpoints | internal/store/store.go:237-257 | one checkpoint for each requested session, or the failure of one of them |
| Queries.CheckpointIsPrefix | internal/store/store.go:237-257 | the checkpoint is the length and the digest of the archive; only a session still to be backfilled has none |
| Hashing.ExtendConcat | internal/store/store.go:343-359 | extending a hash state by two pieces is extending it by both at once, so stored states resume |
| Queries.IndexIsOneParse | internal/store/store.go:310-332 | stored events, metadata and last activity are those of one parse of the whole archive at offset 0, whatever the chunk boundaries |
| Indexing.IndexDescribesArchive | internal/store/store.go:298-332 | in every consistent state, in terms of the archived records alone: stored events describe the records at their positions and every record to be indexed has its event; the stored last activity is the latest time of a record; the stored metadata is that of the first record |
| Queries.ArchiveIsTiled | internal/store/store.go:540-561 | chunks tile the archive without gap or overlap as non-empty runs of whole lines of their declared size and digest; next offset and hash state are those of the archive |
| Store.Store.Events | internal/store/store.go:466-529 | for any table, the page and cursor of `Paging.PageOf`: the rows after the cursor, cut by row limit and byte budget, or a refused cursor |
| Store.Store.TakeRows | internal/store/store.go:482-524 | the row loop fills a page with the longest run of unread text that limit and budget allow, and moves the cursor behind it |
| Cursors.CursorAcceptedExactly | internal/store/store.go:491-500 | a cursor is accepted exactly when it has no text offset or points into the text of a stored event, at a character boundary before its end; a cursor at an event that does not exist is refused |
| Cursors.PageHolds | internal/store/store.go:466-529 | a page holds consecutive stored events from the cursor on, the first from the cursor's text offset, only the last one cut and flagged so; at most `limit` of them when that is between 1 and 100 and else 50; it ends early only at a cut or when fewer than four bytes of the budget are left; the returned cursor points right behind it |
| Paging.PageStep | internal/store/store.go:466-529 | one page: its cursor is accepted next time, page plus rest reassemble to the same events, limit and budget hold, it is empty only when nothing is left, and otherwise uses up work |
| Paging.FollowingCursorsReadsAll | internal/store/store.go:466-529 | following cursors over a growing index until an empty page reassembles exactly the stored events with complete texts |
| Paging.ReadingTakesFewPages | internal/store/store.go:481-528 | N events with B text bytes take at most N + B/(maxBytes-3) non-empty pages |
| LiveReading.ReaderGetsEverything | internal/store/store.go:466-529 | all of that across every interleaving of uploads, runs and restarts between the pages, for sessions not deleted meanwhile |
| Server.Server.HandleEvents | internal/server/server.go:313-336 | a page of the event query with the server's budget of 256 KiB; negative cursors are refused |
| Store.Store.EventChunk | internal/store/store.go:531-538 | the chunk of the tool output recorded at a position, or not found |
| Store.Store.Chunks | internal/store/store.go:540-561 | exactly the session's chunks, each as often as stored, by increasing start offset; not found exactly when there are none |
| Store.Store.DeleteSession | internal/store/store.go:563-589 | the transaction yields the state of `Tables.Delete`, and not found exactly for unknown sessions |
| Deletion.DeleteKeepsInvariant | internal/store/store.go:563-589 | a delete removes exactly one session's rows from all four tables, keeps the invariant and both id counters |
| Deletion.SearchCorresponds | internal/store/store.go:310-326 | search rows correspond one to one, in order and by id, with the events that have something to search; the text searched is the event's text, its tool name and its tool status, joined by spaces and trimmed |
| Identifiers.IdsAreNeverReused | internal/store/store.go:139-188 | over every history, a row found under an id that was given out before is that same row |
| Store.Store.PendingBackfills | internal/store/store.go:366-381 | every session without hash state or metadata, once each, by increasing id |
| Store.Store.FinishBackfill | internal/store/store.go:383-404 | fills exactly one row when it is still pending at the expected offset, else refuses and changes nothing |
| Backfill.RebuildSession | internal/server/server.go:83-122 | succeeds exactly when the chunks read back in sequence from 0 with their keys, sizes, digests and records, end at the stored offset and give metadata; then with the hash state and metadata of that reading, and else with an error that names what is wrong with the first chunk that fails |
| Backfill.ReadBackIsReplay | internal/server/server.go:87-115 | the reference reading of the archive succeeds exactly when the loop's does and every chunk ends where its size says; and then the loop arrives at the hash state, length and metadata of the whole text |
| Backfill.BackfillSessions | internal/server/server.go:77-128 | in any state of the tables: a session is rebuilt only from rows that follow each other from 0, each of its size and digest, to its stored offset, and gets the hash state of their joined plaintexts and their metadata; every other session is unchanged; on success none is without hash state or metadata; on failure the session at fault is pending and no such archive, pending sessions with lower ids are rebuilt, higher ones untouched; only session rows change |
| Backfill.TargetIsWhole | internal/server/server.go:83-122 | what a session is rebuilt to is fixed by its rows: it can be rebuilt exactly when they are a whole archive of records up to its offset, and then to the hash state of their joined plaintexts |
| Backfill.RebuildMatchesUploads | internal/server/server.go:77-128 | what is rebuilt is what chunk-by-chunk uploads have stored |
| Backfill.BackfillKeepsInvariant | internal/server/server.go:77-128 | a backfill, finished or not, keeps the invariant, so it can be repeated |
| Plan.HandleSyncPlan | internal/server/server.go:171-209 | the plan is granted exactly for a well-formed manifest of distinct sessions none of which is shorter than its archive, and then holds their checkpoints; a refusal names a true reason |
| Manifests.PlanContinuesArchives | internal/server/server.go:171-209 | in every consistent state the plan is granted exactly for at most 10,000 distinct safe ids with sizes of at least the archived length and a prefix state each; it lists exactly these ids, each with length and digest of its archive |
| Server.Server.HandleChunk | internal/server/server.go:211-275 | reply and state of `Server.Upload`: the guards in order, then the transaction |
| Server.UploadKeepsInvariant | internal/server/server.go:211-275 | any request whatsoever keeps the invariant; a rejection or duplicate changes nothing; an acceptance appends its plaintext at the end of one archive whose digest it named |
| Server.CheckedIsUploaded | internal/server/server.go:219-269 | the guards establish what the transaction relies on: plaintext, length, digest, whole valid records |
| Guards.ChecksAdmissible | internal/server/server.go:211-268 | a request passes exactly when agent, id, range, sizes and digest lengths are right and its body decrypts to whole records of the declared length and digest; what goes to the store is the declared range, the digest of the plaintext and the body as received |
| Guards.UploadRefusalsAreExplained | internal/server/server.go:211-275 | in every consistent state each refusal, by a guard or by the store, names a reason that holds |
| Guards.UploadsLeaveFilled | internal/store/store.go:259-332 | no upload makes a session one to be backfilled |
| Guards.FoldsLetters | internal/store/store.go:302-304 | digests are compared letter by letter, in either case |
| Server.UploadExtends | internal/server/server.go:211-275 | uploads only append, to any session |
| Server.ReplayIsIdempotent | internal/store/store.go:286-294 | once a chunk is acknowledged, any valid request with its session, start, end and plaintext digest, however encrypted, is a duplicate with the same next offset in any later, extended state, and changes nothing |
| Server.Server.HandleToolOutput | internal/server/server.go:345-384 | locates, decrypts, cuts and decodes as `Server.ToolOutputReply` says, with each error at its place |
| Server.Server.TruncateOutput | internal/server/server.go:433-442 | the cut of `Utf8.Truncate` above the limit, and a flag that says so |
| Locators.ToolOutputReadsBack | internal/server/server.go:345-384 | for every stored tool output the handler finds, decrypts and cuts out the archive record it was extracted from, the line that starts at that byte; it answers exactly when that record also reads as a tool output with its output field, with the text of a string output and the JSON of any other, truncated only above the limit, and refuses it otherwise |
| Locators.OutputRefusalsAreExplained | internal/server/server.go:345-384 | in any state of the tables each refusal of a tool output names a true reason: the position, or a chunk of the session that lacks its key, does not decrypt, does not contain the position, ends inside the record, or holds no tool output there |
| MistypedOutput.MistypedIsRefused | internal/codex/codex.go:273-286 | a record whose payload alone is a tool output but which does not read as one with its output field is accepted, indexed, and refused when asked for |
| MistypedOutput.MistypedExample | internal/server/server.go:377-381 | the concrete JSON line: it repeats `payload`, the first time with a mistyped `type` |
| Locators.OutputChunk | internal/store/store.go:531-538 | the query finds the one chunk that contains the event's position |
| Locators.OtherPositionsAreNotFound | internal/store/store.go:531-538 | positions without a tool output are not found |
| Syncer.Pending.Flush | internal/codex/codex.go:185-201 | uploads what was collected, with the digest of the file up to its end, and starts afresh; nothing when nothing was collected |
| Syncer.Collect | internal/codex/codex.go:210-220 | one line emits first what it would overfill, then itself when full, and otherwise is collected |
| Syncer.ReadChunks | internal/codex/codex.go:148-226 | all checks and uploads of `Syncer.SyncFile` in order, stopping at the first failure; on success the offset is the end of the last complete line |
| Syncer.Uploader.Consume | internal/syncer/syncer.go:43-57 | encrypts and uploads one chunk, with the digest of the file up to its end, and counts it exactly when the expected offset is acknowledged and heard |
| Syncer.Run | internal/syncer/syncer.go:20-65 | a plan refused or unanswered changes nothing; otherwise every source is synced against its planned checkpoint up to the first failure, and sessions, chunks and bytes are counted; each upload may fail to be sent, or reach the server without its reply being heard |
| Accounting.ChunksCount | internal/syncer/syncer.go:39-57 | of one file, exactly the chunks up to the first that is not acknowledged are counted, with their bytes; each request carries the chunk's range, its digest and that of the file up to its end; what became of the first failure is what is reported |
| Accounting.FileErrors | internal/codex/codex.go:158-184 | a file is refused as too short, rewritten or off a line boundary exactly when it is, before anything is uploaded |
| Accounting.RunCounts | internal/syncer/syncer.go:34-64 | a run, failed or not, counts the chunks and bytes of every source it got to and, as sessions, those synced without failure and with at least one chunk; it stops exactly at the first source that fails or has no checkpoint |
| Convergence.GoodPassesGuards | internal/server/server.go:219-268 | no chunk the chunker emits fails a guard of the server |
| Convergence.SendOneAppends | internal/store/store.go:298-331 | a chunk that continues the archive is accepted as new and appended |
| Convergence.SyncFileConverges | internal/codex/codex.go:148-226 | syncing one continued file succeeds, archives it to its last newline, counts exactly the growth, and touches no other session |
| Convergence.RunConverges | internal/syncer/syncer.go:20-65 | an uncontended run from any consistent state succeeds for all files; bytes are the growth of the offsets, sessions those that grew |
| Convergence.RerunUploadsNothing | internal/syncer/syncer.go:20-65 | a further run over the unchanged files uploads nothing and changes nothing |
| Convergence.SyncThenExport | internal/admin/admin.go:39-65 | sync followed by export returns the file's longest newline-terminated prefix, byte for byte |
| Recovery.ExecutionKeepsInStep | internal/syncer/syncer.go:34-58 | runs over a growing file, crashing and retrying anywhere, only ever put prefixes of it on the server |
| Recovery.CrashConvergence | internal/syncer/syncer.go:20-65 | after any such history, and with files that may grow between being listed and being read, one undisturbed run completes with exact accounting; one more over the files listed again uploads nothing and changes nothing |
| Recovery.RewrittenIsRefused | internal/codex/codex.go:158-176 | the client refuses a truncated or rewritten file exactly when it no longer starts with the archive, and then uploads nothing |
| Protocol.ExecutionKeepsInvariant | internal/store/store.go:259-332 | every state reachable by uploads, runs, deletes and restarts satisfies the invariant, without any assumption about digests |
| Protocol.AcknowledgedToRun | internal/syncer/syncer.go:34-58 | in every interleaving, an acknowledgement to a run means the archive starts with all that the run has read, if the session was not deleted since its plan |
| Protocol.ExecutionIsSafe | internal/syncer/syncer.go:34-58 | every run of every interleaving agrees with the archive on its checkpoint and on all it had acknowledged |
| Protocol.FreshAgrees | internal/store/store.go:298-304 | a chunk accepted as new makes the archive equal to what the run has read, even after deletes |
| Protocol.DuplicateAgreesExactly | internal/store/store.go:286-294 | after a duplicate, run and archive agree exactly when the digest sent is that of the archive up to the chunk's end |
| Protocol.OpenedAgrees | internal/codex/codex.go:161-176 | a file that passes the prefix check starts with the archive as planned |
| Protocol.ExecutionExtends | internal/store/store.go:259-332 | without a delete everything stored of a session stays in place |
| Protocol.RedeliveryChangesNothing | internal/store/store.go:286-292 | an acknowledged request delivered again, or its chunk encrypted anew, after any steps without a delete is a duplicate and changes nothing |
| Protocol.SyncFileIsExecution | internal/codex/codex.go:148-226 | syncing a file does to the server what the protocol steps of its run do, whatever gets lost on the network |
| Protocol.DeliverIsStep | internal/syncer/syncer.go:39-57 | one upload of the client is one step of its run: the same tables, and the run goes on exactly when the client does |
| Protocol.BackfillIsRestart | internal/server/server.go:77-128 | whatever a startup backfill does, finished or stopped, is a restart step of the protocol |
| WholeRun.RunIsExecution | internal/syncer/syncer.go:20-65 | a whole run, over any sources and any network, does to the server what its protocol steps do |
| WholeRun.RunKeepsInvariant | internal/syncer/syncer.go:34-64 | every run keeps the invariant, with any plan however old, over any sources, whatever gets lost |
| StalePlan.StaleRunDisagrees | internal/store/store.go:286-294 | with a delete and a different re-upload in between, a duplicate is acknowledged to a run that disagrees with the archive, while the tables stay consistent |
| StalePlan.StaleRunExample | internal/store/store.go:286-294 | a concrete instance of that |
| StalePlan.NoCollisionToBlame | internal/store/store.go:286-294 | in which the digests of the differing texts differ |
| Admin.Export | internal/admin/admin.go:20-80 | succeeds exactly on a known session whose chunks follow each other from 0 and read back with their size and digest, and then writes their plaintexts in order; else it names what is wrong with the first chunk that fails |
| Admin.ExportIsArchive | internal/admin/admin.go:39-65 | in every consistent state, with all the server's keys, export meets no gap and no integrity failure and writes the archive |
| Auth.CanonicalRequest | internal/auth/auth.go:50-76 | the text of the sorted signed fields, in whatever order the header is visited |
| Auth.CanonicalIsUnique | internal/auth/auth.go:50-60 | the request determines the text |
| Auth.CanonicalDecodes | internal/auth/auth.go:50-76 | two clean requests have the same text exactly when verb, URI, sorted names with values and body digest agree |
| SignedFields.ValueIsCovered | internal/auth/auth.go:64-69 | the text holds, on a line of its own, the lower-case name of each of the service's own fields but the signature, with its first value, trimmed |
| SignedFields.TextCoversFields | internal/auth/auth.go:50-76 | two clean requests have the same text exactly when verb in upper case, URI and body digest agree and they have the same covered fields with the same trimmed first values |
| SignedFields.OthersAreNotCovered | internal/auth/auth.go:52-58 | any other field, stored with any values, leaves the text as it is |
| SignedFields.CanonicalIgnoresCase | internal/auth/auth.go:64-69 | however the name of a field is spelled, its value is looked up under one key |
| SignedFields.CaseTables | internal/auth/auth.go:53-60 | upper and lower case exchange the letters of the alphabet and leave every other byte |
| SignedFields.CanonicalNames | internal/auth/auth.go:16-20 | how the service's own three fields are stored |
| SignedFields.SignedText | internal/auth/auth.go:23-33 | the text of a request of the client, byte by byte |
| Auth.SignatureIsNotSigned | internal/auth/auth.go:23-33 | storing the signature in the header does not change the text to be verified |

## Left out

- Records.ParseChunk: JSON syntax, the UUID pattern and the form of `source` are one uninterpreted decoding.
- Records.ExtractEvent: the text of decoding errors is not modelled, only their place.
- Store.Store.Events: errors of the database are not modelled; the check of the cursor is made once on the first row instead of inside the row loop, and positions are unique per session, as the table demands.
- Store.Store.PutChunk: a hash state that does not unmarshal is not modelled, only a missing one; wall-clock columns are left out.
- Server.Server.HandleChunk: header and path parsing, and the limit on the size of the body while it is read, appear as fields of the request.
- Server.Server.HandleToolOutput: status codes are not modelled; database errors other than not found are not either.
- Plan.HandleSyncPlan: the limit on the size of the JSON body is not modelled.
- Syncer.Run: an encryption failure is not told apart from a request that is not sent; that the size and the byte before the checkpoint are read apart from the rest of the file is not modelled.
- Chunker.Reader.ReadSlice: read errors of the file are not modelled.
- Auth.CanonicalRequest: letters are ASCII; trimming a value is uninterpreted; reading the body with its size limit, Ed25519 and base64 are left out.
- Admin.Export: the temporary file, its permissions and the refusal to overwrite are left out; the result is the bytes written.
- SQLite, WAL, schema migration and FTS tokenising: tables are values with transactional rollback.
- gzip, age and the internals of SHA-256: uninterpreted, as described above.
- Discovery and inspection of session files, configuration, key generation, HTTP routing, the MCP proxy and the command line.
- Session search and its filter, the device list and JSON request decoding: single-branch code.
