# Verification of the mail archiver

A model of the mail archive daemon and machine-checked proofs about it. The daemon connects to
IMAP accounts, downloads messages above the highest archived UID, stores them with their
attachments and tags in PostgreSQL and on disk, deletes what a server has dropped after a grace
period, and answers paged, tag-filtered searches.

`dafny verify dfyconfig.toml` checks everything (Dafny 4.11).

## How it is put together

| files | what they model |
|---|---|
| `EmailTable`, `FolderPass` | the `emails` table with its SQL, and one pass over one folder as a function of the rows before it |
| `Engine` | the sync engine as a state machine: tasks with account snapshots, semaphore permits, mail servers, users; one step per statement between two awaits |
| `EngineSafety`, `EnginePass`, `EngineMirror`, `EngineGenerations`, `EngineIsolation`, `EngineExamples` | what all its runs keep, and concrete runs outside those conditions |
| `EngineRuns`, `EngineRefines` | that it has all the runs of the program: every outcome of every statement from every state, and a run for whatever the procedures of `SyncEngine` leave |
| `Storage`, `Pipeline`, `Accounting` | tables and attachment files, all statements on them, storing one message with every failure point, and deduplication |
| `SyncEngine` | the procedures themselves as methods that change the database: loops over sets in any order, every statement allowed to fail, proved against the functions above |
| `Text`, `ImapText`, `ImapReader` | the text layer of the IMAP client (decimals, tags, literals, quoting), its two read loops, and a server's printer |
| `ImapList`, `ImapListResponse`, `ImapListRepaired` | one LIST line, whole LIST responses, and a reader that gets every name |
| `ImapSearch`, `ImapSelect`, `ImapClient` | the other response parsers, over the bytes of whole responses, and the client |
| `Mime`, `EmbedText`, `Search` | the MIME walk, the embedding text, the search page |

Everything outside the program is a parameter: server answers, failing statements, the order in
which a set is iterated, the cutoff of a grace deletion, the hash function. Where a result needs
it, the hash is assumed free of collisions (`Storage.CollisionFree`) and a file write is atomic.
`generation`, `before`, `got` and `saved` are history variables: no operation reads them. The state
machine and the procedures are two models of the same code; `EngineRefines` proves that whatever the
procedures leave, under any failures, the machine has a run for.

## What the code does that its intent does not

The model follows the code. These are the places where the two part, each with its proof.

- With two or more permits, two tasks of one account can overlap and store the same message
  twice; `EngineExamples.SafeParallelism` shows the key is safe exactly for `max_parallelism` at
  most 1.
- Each folder rewrites the whole UIDVALIDITY map from the pass's snapshot, so entries written
  earlier in the pass are lost. `EngineGenerations.WholeMapRightExactlyWhen` gives the exact
  condition on the map, `GenerationsKeptExactlyWhen` on the rows: over any run of the program as
  written they stay in the stored generation if and only if at each map write the snapshot and the
  stored map have the same entry for every other folder that has rows (`Covers`).
  `WholeMapMixesGenerations` is a serial run that ends with two generations of UIDs side by side,
  and `ReachableGenerations` proves the repaired, per-folder write without any such condition.
- A message that failed below a later stored one is not retried while a row at or above it
  remains, over sequences of passes (`FolderPass.ShadowedStaysMissing`,
  `RetriedExactlyWhenUnshadowed`) and over any interleaving (`EnginePass.LeftOutStaysMissing`).
- Grace deletion deletes by UID, so it takes exactly the expired rows only if no expired row
  shares its UID with one that is not (`FolderPass.GraceExactlyWhen`); with two permits a run can
  delete a row that has not expired (`EngineExamples.GraceDeletesUnexpired`).
- UIDVALIDITY and EXISTS are parsed without skipping the space next to the number, so over the
  bytes of any standard SELECT response both come out as 0 (`ImapSelect.SelectYieldsZero`); a
  number is read if and only if no white space stands between it and the word
  (`ImapSelect.ValidityReadExactlyWhen`, `ExistsReadExactlyWhen`). The repaired readers get both
  numbers from the same bytes. The engine model takes the value as given by the server.
- `list_mailboxes` takes what stands between the last two quotes of a LIST line, so it needs the
  name to be quoted. A name sent as an atom, as in `* LIST () "/" INBOX`, is never read: the hierarchy
  delimiter is taken for the mailbox, or with NIL nothing (`ImapList.AtomListsDelimiter`,
  `InboxIsNotListed`). A name sent as a literal does not come back either. Escapes are not undone, and a
  quoted name with a number in braces, such as `{5}`, makes its line look like the announcement of a
  literal, so that the line and the bytes after it are swallowed
  (`ImapListResponse.BracedFiveIsLost`). The mailboxes of a response come back if and only if each
  line has a quoted name without a quote, a backslash or such a marker, or an atom that is the
  delimiter itself (`ImapListResponse.ListResponseExactlyWhen`). A reader that takes the last item of
  the line, in all three forms, gets every name from the same bytes
  (`ImapListRepaired.RepairedListReadsAll`).
- After a literal the fetch loop takes two bytes for CRLF although `)` and CR follow; it is in
  step again at the next LF (`ImapReader.FetchRoundTrip`).
- At the end of the stream both read loops spin for ever; the model ends there with `Stalled`. For
  every stream `ImapReader.CommandSpinsExactlyWhen` and `FetchSpinsExactlyWhen` say whether that
  happens, and `CommandEnds` and `FetchEnds` what each loop makes of a stream that stops between
  items, within a line or within a literal. A completion line that is cut short is taken for the
  whole one.
- The orphan query can find nothing, because attachment rows cascade with their email
  (`Storage.CleanUpIsNoOp`).
- A From header in which `>` comes before `<` makes the address extraction panic
  (`Pipeline.AddressPanicsExactlyWhen`, `AddressExactlyWhen`); the panic kills the task with the row already stored.
- The page offset wraps at 2^32 in a release build, so pages far beyond the last can show early
  rows (`Search.WrappedPage`); within the counted pages it never does.
- `MAX` over no rows is NULL and meant to be `None`; decoding it into a plain integer would be an
  error instead. The model has `None`.

## Model

| member | source | states |
|---|---|---|
| EngineSafety.PermitsConserved | src/imap/sync_engine.rs:303-336 | over every run, running tasks plus free permits stay equal to max_parallelism and permits never go negative |
| EngineSafety.OnePermitExcludes | src/imap/sync_engine.rs:57-60 | with one permit no two running tasks ever share an account, whatever backlog the ticks pile up |
| EngineSafety.NeverStoredTwice | src/imap/sync_engine.rs:192-227 | in every interleaving without overlapping tasks of an account, under arbitrary failures, resets and deletions, no (account, folder, uid) is stored twice and no pending UID is archived already |
| EngineExamples.OverlapStoresTwice | src/imap/sync_engine.rs:323-336 | for any number of permits above one, a run of two ticks that stores one message twice |
| EngineExamples.SafeParallelism | migrations/20240101000000_create_schema.sql:48 | the non-unique key is unique in all reachable states if and only if max_parallelism is at most 1 |
| EngineMirror.AboveMaxIsDifference | src/imap/sync_engine.rs:201-206 | the UIDs above MAX are the listed UIDs that are not archived if and only if every listed UID is archived or above everything archived |
| EngineMirror.DownloadsTheDifference | src/imap/sync_engine.rs:189-206 | over every run with a constant UIDVALIDITY, also after the maximum itself was deleted, the MAX shortcut downloads exactly the set difference |
| EngineMirror.PassMirrors | src/imap/sync_engine.rs:189-232 | after every pass of such a run the archive is the searched UIDs, less those expunged before their fetch, plus the unlisted rows whose date is NULL or not before the cutoff; the rows are those of the atomic pass |
| EngineMirror.OnePermitMirrors | src/imap/sync_engine.rs:57-60 | the same conclusion with one permit and no assumption on the interleaving |
| EnginePass.EveryPassIsAtomic | src/imap/sync_engine.rs:189-232 | over every run without overlapping tasks of the account, under arbitrary failures, resets and crashes, a finished pass leaves the rows of the atomic pass and leaves out exactly the retry set |
| EngineRuns.EveryPassIsARun | src/imap/sync_engine.rs:139-235 | from any state with a task between folders: for any part of the attempted UIDs stored, with any dates, and any cutoff, the task's own steps take it to the end of the pass with exactly those rows and the folder done; with unique keys they are the atomic pass |
| EngineRuns.PassGoesOn | src/imap/sync_engine.rs:139-235 | the same from wherever the task stands in a pass, whatever the rest of the world has done meanwhile |
| EngineRuns.StatementCanFail | src/imap/sync_engine.rs:105-125 | each failing statement ends the pass there and leaves everything else as it was |
| EngineRuns.TaskCanDie | src/imap/sync_engine.rs:57-60 | a task can die wherever it is and gives its permit back |
| EngineRuns.WorldIsFree | src/imap/sync_engine.rs:303-336 | in every state ticks, permits, mail, resets and account deletions are possible and do just that |
| EngineRefines.PassIsARun | src/imap/sync_engine.rs:139-235 | whatever sync_folder can leave of a folder, under whatever failures, a run of the task's own steps leaves: rows, maps, and a task with the folder done or dead |
| EngineRefines.AccountIsARun | src/imap/sync_engine.rs:105-125 | the same for the loop over all folders of an account |
| EngineRefines.SyncAccountIsARun | src/imap/sync_engine.rs:105-125 | running sync_account on the database ends with the rows of every folder and the stored maps that some run of the machine's task ends with, and with that task dead exactly if the program panics |
| EngineIsolation.AloneIsTheSame | src/imap/sync_engine.rs:321-336 | leaving out other accounts' steps from any interleaving gives a legal run in which the account's set of rows, map, tasks and mailboxes end the same |
| EngineIsolation.AloneHasSameCopies | src/imap/sync_engine.rs:321-336 | in those two runs each row of the account is there equally often, duplicates of overlapping tasks included |
| EngineIsolation.AccountsIndependent | src/imap/sync_engine.rs:303-336 | from a fresh start every account's rows, counted with duplicates and up to row ids, are those of running its own steps alone |
| EngineGenerations.GenerationsKept | src/imap/sync_engine.rs:153-187 | with a per-folder write and no two live tasks of an account, each step of any run keeps all rows of a folder in the stored generation |
| EngineGenerations.ReachableGenerations | src/imap/sync_engine.rs:153-173 | so every reachable state has only rows whose UIDVALIDITY is the stored one |
| EngineGenerations.WholeMapRightExactlyWhen | src/imap/sync_engine.rs:175-187 | the whole-map write leaves the intended map if and only if every selected folder but the last already had its current value in the snapshot |
| EngineGenerations.WholeMapStepExactlyWhen | src/imap/sync_engine.rs:175-187 | a whole-map write keeps all rows in the stored generation if and only if snapshot and stored map agree on every other folder that has rows, and then it keeps the whole invariant |
| EngineGenerations.GenerationsKeptExactlyWhen | src/imap/sync_engine.rs:175-187 | over every run of the program as written without two live tasks of the account, all its rows are in the stored generation in every state if and only if each of its map writes agrees with the stored map on every other folder that has rows |
| EngineGenerations.ReachableAsWritten | src/imap/sync_engine.rs:175-187 | the same from every fresh start |
| EngineGenerations.WholeMapMixesGenerations | src/imap/sync_engine.rs:175-187 | a serial run of the code as written that ends with rows of two generations in one folder |
| FolderPass.UidsAfterPass | src/imap/sync_engine.rs:201-268 | the archived UIDs after a pass: listed ones that were or became archived, and unlisted ones the grace period protects |
| FolderPass.MissingAfterPass | src/imap/sync_engine.rs:202-227 | listed UIDs missing after a pass are exactly those already missing at or below the old maximum and those tried and not stored |
| FolderPass.NextAttempts | src/imap/sync_engine.rs:192-206 | the next pass tries exactly the missing UIDs above the new maximum and the arrivals |
| FolderPass.ShadowedStaysMissing | src/imap/sync_engine.rs:202-206 | over any sequence of passes a missing UID stays missing while some row at or above it remains |
| FolderPass.RetriedExactlyWhenUnshadowed | src/imap/sync_engine.rs:202-206 | a missing listed UID is tried if and only if no archived UID is at or above it |
| EnginePass.MissedStaysMissing | src/imap/sync_engine.rs:192-227 | in any interleaving, overlapping tasks included, a missing UID that no task is about to fetch stays missing while the folder keeps a row at or above it |
| EnginePass.LeftOutStaysMissing | src/imap/sync_engine.rs:192-227 | so what a finished pass of the machine has left out stays out over every continuation of that kind |
| FolderPass.GraceExactlyWhen | src/imap/sync_engine.rs:246-268 | deletion by UID removes exactly the expired and absent rows if and only if no absent UID has both an expired and an unexpired row |
| EngineExamples.GraceDeletesUnexpired | src/imap/sync_engine.rs:246-268 | for any number of permits above one, a run with a reset between two overlapping searches after which the grace loop deletes a row that has not expired |
| SyncEngine.Archive.GracePeriodDelete | src/imap/sync_engine.rs:238-278 | the loop, in any row order, deletes from this folder only and cascades; it fails exactly if the query does or a DELETE that it gets to, one for each expired and absent row; with unique keys it counts each deleted row once |
| SyncEngine.Archive.FetchAll | src/imap/sync_engine.rs:208-227 | in any iteration order and under any failures the folder gains exactly one row per attempted UID that was stored; all other emails keep their rows, attachments and tags |
| SyncEngine.Archive.WipeAndMap | src/imap/sync_engine.rs:153-187 | wipes the folder exactly when the snapshot has another value, then stores the snapshot with this folder's value |
| SyncEngine.Archive.SyncFolder | src/imap/sync_engine.rs:139-235 | the rows, map and status of a whole pass over a folder, equal to the atomic pass when keys are unique, for every order and every failing statement; it panics exactly if an attempted message does, and otherwise fails only where a statement does; emails come and go as wholes, in this folder only |
| SyncEngine.Archive.SyncAccount | src/imap/sync_engine.rs:105-125 | over all folders: excluded ones untouched, failed ones passed over, none fails unless a statement does, the stored map as the whole-map writes leave it, invariants kept, emails of other folders and accounts left alone, and if no folder is listed twice each ends with the rows its own pass leaves |
| Storage.CleanUpIsNoOp | src/storage/attachment.rs:59-86 | wherever foreign keys hold there are no orphans and cleaning up changes nothing |
| Storage.EveryInterleaving | src/storage/attachment.rs:17-42 | over every interleaving of all statements: foreign keys, unique tag names, and each live attachment's file present at its path with the bytes that were saved |
| Storage.ExecKeepsFiles | src/storage/attachment.rs:20-28 | no statement, a second write of the same hash included, loses a file or the content of a live attachment's file |
| Storage.ExecKeepsIntegrity | migrations/20240101000000_create_schema.sql:31-74 | every statement keeps foreign keys, serial ids and unique tag names |
| Storage.CascadeIsLocal | migrations/20240101000000_create_schema.sql:52-74 | deleting emails takes exactly their own attachments and tag links, and no other row |
| Storage.WholeOn | src/imap/sync_engine.rs:192-227 | changes that let emails come and go only as wholes, with their attachment rows and tag links, stay so one after the other |
| SyncEngine.Archive.CleanupOrphans | src/storage/attachment.rs:59-86 | the count is the number of files removed, and in every state the database allows it is 0 and nothing changes |
| SyncEngine.Archive.SaveAttachment | src/storage/attachment.rs:11-45 | the file and row left behind for each place it can fail, and when it reports success |
| SyncEngine.Archive.RemoveAccount | src/api/routes.rs:231-246 | internal error, with nothing changed, exactly when the statement fails; not-found exactly for unknown accounts; otherwise that account and exactly its own emails, attachment rows and tag links are gone, and everything else is as it was |
| Pipeline.StoreMailSound | src/storage/mod.rs:22-121 | with failures anywhere, storing a message adds at most its one email row, keeps all invariants, and changes nothing that belongs to another email |
| Pipeline.FullStore | src/storage/mod.rs:66-118 | when everything succeeds the email carries its folder's tag, that of its sender's address as the From header gives it if there is one, the attachment tag when there are attachments, and no other; and has:attachment exactly when it has attachment rows |
| Pipeline.StoredTags | src/storage/tags.rs:15-44 | if a tag statement fails the email carries exactly the names before that one, in the order folder, sender, attachment |
| Pipeline.StoredUntagged | src/storage/mod.rs:87-121 | without its UPDATE, or with an unreadable sender, it carries none |
| Pipeline.StoredAttachments | src/storage/mod.rs:66-72 | whatever fails, the email's attachment rows are those of the attachments whose file is there or can be written and whose insert succeeds, in order and with their fields; no other row is new |
| Pipeline.TagAllTags | src/storage/tags.rs:31-42 | auto_tag_email adds exactly the generated names to the email's tags, up to the one that fails |
| Pipeline.AutoTagTwice | src/storage/tags.rs:31-68 | repeating it changes nothing |
| Pipeline.BracketedAddress | src/storage/tags.rs:71-82 | what stands between the brackets, trimmed, is the extracted address |
| Pipeline.UnbracketedAddress | src/storage/tags.rs:78-81 | without both brackets it is the whole header, trimmed, if that has an `@`, and else there is none |
| Pipeline.AddressExactlyWhen | src/storage/tags.rs:71-82 | the two together: an address is extracted if and only if it is what the header means, for every header |
| Pipeline.AddressPanicsExactlyWhen | src/storage/tags.rs:71-76 | extraction panics if and only if the first `>` precedes the first `<` |
| SyncEngine.Archive.StoreEmail | src/storage/mod.rs:22-121 | the pipeline as a method, and when it succeeds, fails or panics |
| SyncEngine.Archive.AutoTag | src/storage/tags.rs:31-44 | the tag loop, stopping at the first failing statement |
| Accounting.DedupAccounting | src/storage/attachment.rs:24-42 | over any run of saves there is one file per distinct hash, and disk bytes are at most the reported sum, with equality exactly when no hash was saved twice |
| Accounting.DedupFromEmpty | src/storage/attachment.rs:24-42 | the same from an empty archive, in numbers |
| Accounting.DiskBytesRemove | src/api/routes.rs:531-535 | the bytes on disk do not depend on the order in which files are counted |
| ImapReader.CommandFraming | src/imap/client.rs:108-144 | any response of untagged lines and literals, whose bytes may look like anything, is returned in order and consumed exactly |
| ImapReader.CommandEnds | src/imap/client.rs:110-144 | what the command loop makes of any stream of whole items and an ending: complete, cut within a line, cut within a literal, or silent |
| ImapReader.EveryStreamIsFramed | src/imap/client.rs:110-144 | every stream is of that form |
| ImapReader.CommandSpinsExactlyWhen | src/imap/client.rs:110-144 | over every stream, the command loop spins for ever if and only if the stream ends after whole items or in a line with neither marker nor tag |
| ImapReader.NoCompletionStalls | src/imap/client.rs:110-144 | in particular without a completion line it never returns |
| ImapReader.FetchEnds | src/imap/client.rs:258-291 | what the fetch loop makes of any stream of whole items and an ending, those after a literal whose announcement starts with the tag included |
| ImapReader.EveryFetchStreamIsFramed | src/imap/client.rs:258-291 | every stream is of that form |
| ImapReader.FetchSpinsExactlyWhen | src/imap/client.rs:258-291 | over every stream, the fetch loop spins for ever if and only if the stream ends after whole items or in a line with neither marker nor tag |
| ImapReader.FetchRoundTrip | src/imap/client.rs:255-291 | any body printed as one literal is returned byte for byte, with the cursor just after the completion line |
| ImapReader.SessionStaysAligned | src/imap/client.rs:234-292 | over any sequence of fetches each body goes to the command that asked for it |
| ImapText.MarkerRoundTrip | src/imap/client.rs:326-334 | a literal marker at the end of a line is read back whatever precedes it |
| ImapText.TagInjective | src/imap/client.rs:14-17 | different counter values give different tags |
| ImapText.TagShape | src/imap/client.rs:14-17 | a tag is the letter A and at least three digits, which denote the counter |
| ImapText.TagsUnambiguous | src/imap/client.rs:137-137 | a tag and a space start the completion line of that tag only |
| ImapText.TagsDistinct | src/imap/client.rs:12-17 | the wrapping counter repeats no tag within 2^32 calls |
| ImapText.QuoteIsEscape | src/imap/client.rs:337-339 | the two successive replaces equal one escape per character |
| ImapText.QuoteRoundTrip | src/imap/client.rs:337-339 | a quoted-string reader recovers the argument, consuming exactly it, if and only if it has no CR or LF |
| ImapText.DecimalRoundTrip | src/imap/client.rs:236-236 | a printed number is digits that read back as the number |
| ImapText.ParseSigned | src/imap/client.rs:326-334 | a plus sign is read before sizes, UIDs and UIDVALIDITY, a minus sign before the latter two |
| ImapReader.PlainResponse | src/imap/client.rs:108-144 | untagged lines without a marker reach the caller as printed, for every command tag |
| ImapReader.MarkedLineSwallows | src/imap/client.rs:118-132 | a line with a marker never does: it and the bytes it announces are swallowed |
| ImapReader.CompletesExactlyWhen | src/imap/client.rs:137-137 | a completion line, as a server prints it, completes the command with its tag and no other |
| ImapList.ListedExactlyWhen | src/imap/client.rs:300-311 | the parser of one LIST line recovers the quoted last item if and only if the name has no quote and no backslash |
| ImapList.ListedInAnyCase | src/imap/client.rs:301-301 | the word LIST may be in any case |
| ImapList.AtomListsDelimiter | src/imap/client.rs:304-308 | for a name sent as an atom the parser returns the quoted delimiter, as it stands, or nothing when that is NIL |
| ImapList.InboxIsNotListed | src/imap/client.rs:304-308 | the mailbox INBOX listed as an atom comes out as `/` |
| ImapList.LineExactlyWhen | src/imap/client.rs:300-311 | a line of one string is taken for no literal and gives its name if and only if that is quoted without a quote, a backslash or a marker, or is an atom equal to the delimiter |
| ImapListResponse.ListResponseExactlyWhen | src/imap/client.rs:295-313 | from the bytes of any LIST response, each line with its own attributes, delimiter and form of name and other untagged lines between: exactly its mailboxes, in order and with the cursor at its end, if and only if every LIST line is such a line |
| ImapListResponse.MarkedNameSwallows | src/imap/client.rs:118-132 | a quoted name that carries a marker is never returned: the reader swallows its line and as many of the following bytes as it says, and two more |
| ImapListResponse.NumberedName | src/imap/client.rs:326-334 | every name with a number in braces and no brace after it carries one |
| ImapListResponse.BracedFiveIsLost | src/imap/client.rs:118-132 | the mailbox `{5}`: seven bytes of what follows are swallowed with its line |
| ImapListRepaired.RepairedReadsName | src/imap/client.rs:300-311 | taking the last item, an atom or a quoted string with escapes undone, gets the name from every line the parser above is given |
| ImapListRepaired.RepairedListReadsAll | src/imap/client.rs:295-313 | with literals taken only where the standard puts them, every LIST response comes back whole and in order, names in all three forms |
| ImapList.ListThenSelect | src/imap/client.rs:166-167 | a name without quote, backslash or line end is sent back by SELECT as the server wrote it and names the same mailbox |
| ImapSearch.SearchRoundTrip | src/imap/client.rs:215-228 | the UIDs a server prints are the UIDs parsed, in order |
| ImapSearch.OtherWordsSkipped | src/imap/client.rs:217-225 | words of the line that are no numbers are passed over |
| ImapSearch.SearchResponse | src/imap/client.rs:209-229 | from the bytes of a SEARCH response, other untagged lines before, between and after its SEARCH lines, to exactly their UIDs in order |
| ImapSearch.StatusRoundTrip | src/imap/client.rs:146-149 | the status a server puts after the tag is the status reported, with or without a text after it |
| ImapSelect.UidValidityReadExactlyWhen | src/imap/client.rs:177-186 | a value is read from a line if and only if a digit follows the word directly and the digits denote a number below 2^63; it is that number |
| ImapSelect.ValidityReadExactlyWhen | src/imap/client.rs:179-184 | a printed UIDVALIDITY is read if and only if no white space precedes the number; the repaired reader always gets it |
| ImapSelect.ExistsReadExactlyWhen | src/imap/client.rs:188-200 | a printed EXISTS likewise |
| ImapSelect.SelectYieldsZero | src/imap/client.rs:172-206 | from the bytes of any standard SELECT response both numbers come out as 0, and the repaired readers get both |
| ImapSelect.OrdinaryLineIsStandard | src/imap/client.rs:177-186 | the usual UIDVALIDITY line is such a line, for every number |
| ImapClient.SelectReturns | src/imap/client.rs:166-206 | from the bytes of a response of plain lines: the last UIDVALIDITY and the last EXISTS that are read, in this order, or refused by its status |
| ImapClient.SelectReturnsZeros | src/imap/client.rs:166-206 | so over any standard response the command returns (0, 0) or is refused, by its status alone |
| ImapClient.CommandReturns | src/imap/client.rs:87-152 | from the bytes of any framed response: its status line and its data in order, with the rest left unread |
| ImapClient.FetchReturnsBody | src/imap/client.rs:234-292 | any body printed as a literal is what the command returns, byte for byte, with the rest left unread |
| ImapClient.FetchReturnsNothing | src/imap/client.rs:286-288 | a response without a literal is an error, after its completion line |
| ImapClient.ListReturnsExactlyWhen | src/imap/client.rs:295-313 | the command returns the mailboxes of a LIST response, and leaves the rest unread, if and only if all of its lines can be read |
| ImapClient.SearchReturns | src/imap/client.rs:209-229 | the command returns the UIDs of a SEARCH response if that is OK or has a SEARCH line, and is refused otherwise |
| ImapClient.Client.Command | src/imap/client.rs:87-152 | what is sent, and over every stream what is returned and left unread, by how the stream ends; connected or not |
| ImapClient.Client.UidFetchRaw | src/imap/client.rs:234-292 | the same for the fetch loop |
| ImapClient.Client.ListMailboxes | src/imap/client.rs:295-313 | the command it sends and its result over every stream |
| ImapClient.Client.UidSearchAll | src/imap/client.rs:209-229 | the command it sends, what stays unread, and its result: refused only if neither OK nor mentioning SEARCH |
| ImapClient.Client.SelectMailbox | src/imap/client.rs:166-206 | the quoted name it sends, what stays unread, and the two numbers it returns |
| ImapClient.Client.Logout | src/imap/client.rs:316-321 | unless the command hangs, both halves are closed |
| ImapClient.TagCounter.NextTag | src/imap/client.rs:12-17 | the tag of the old value, and a 32-bit wrap-around |
| Mime.FindTextIsFirst | src/mail/parser.rs:111-124 | find_text_part is the first decodable part, in preorder, among the matches that lie below no other match |
| Mime.FindTextPart | src/mail/parser.rs:111-124 | the early-return loop computes that |
| Mime.PlainBeatsHtml | src/mail/parser.rs:93-109 | a decodable text/plain part anywhere wins, then HTML, stripped, then the lossy decoding of the raw body, and when the error arises |
| Mime.MatchesExactlyWhen | src/mail/parser.rs:112-112 | types are compared letter by letter without regard to case |
| Mime.Collector.Walk | src/mail/parser.rs:163-213 | the accumulator gains exactly the qualifying non-empty parts of the tree in preorder |
| Mime.AttachedExactlyWhen | src/mail/parser.rs:167-195 | a part is recorded if and only if its disposition mentions attachment or inline in any case, or it is an image, it is no text, and it decodes to something; and which are inline |
| Mime.InfoAt | src/mail/parser.rs:193-203 | each qualifying part gives one attachment, after those of the parts before it, with its type, data, hash, file name and inline flag |
| Mime.UnnamedWithoutParameter | src/mail/parser.rs:178-191 | without a filename parameter the name is unnamed_attachment |
| Mime.InfosHashed | src/mail/parser.rs:193-203 | each attachment is non-empty and carries the hash of its data |
| Mime.FilenameRecoveredExactlyWhen | src/mail/parser.rs:178-191 | a quoted file name is recovered if and only if nothing but quotes follows its closing quote |
| Mime.FollowingParameterKept | src/mail/parser.rs:178-191 | another parameter after it stays in the name, closing quote included |
| Mime.TextIsNeverAttached | src/mail/parser.rs:172-177 | a body part of lower-case type is never also an attachment |
| EmbedText.EmbedWords | src/mail/parser.rs:78-90 | the words are the first n of the subject's followed by the body's |
| EmbedText.EmbedNormal | src/mail/parser.rs:85-89 | normalising again changes nothing |
| EmbedText.EmbedPrefix | src/mail/parser.rs:78-90 | a smaller limit gives a prefix |
| Search.SelectedIsDivision | src/api/routes.rs:317-325 | the doubly negated subquery selects exactly the emails whose tags include all requested ones |
| Search.FilterMonotone | src/api/routes.rs:364-371 | more tags select fewer emails; order and repetition do not matter |
| Search.ParseTagsRoundTrip | src/api/routes.rs:299-307 | the comma-free names of a list, with any white space around them and any empty places, are the requested tags in order; without a list there are none |
| Search.PageShape | src/api/routes.rs:295-297 | within the counted pages the offset never overflows, every page but the last is full and none is empty |
| Search.RequestReturns | src/api/routes.rs:295-297 | page 1 and 20 rows by default, page 0 is page 1, and between 1 and 100 rows a page: a page that begins within the result is its stretch of it |
| Search.PagesPartition | src/api/routes.rs:346-373 | all pages one after the other are the result list |
| Search.NonEmptyExactlyWhen | src/api/routes.rs:346-350 | short of a wrapped offset a page has rows if and only if it is counted |
| Search.BeyondLastPage | src/api/routes.rs:297-297 | a later page is empty if and only if its wrapped offset is past the end |
| Search.WrappedPage | src/api/routes.rs:297-297 | a page number whose offset wraps to early rows |
| Search.SearchPages | src/api/routes.rs:310-373 | however the results are ordered, COUNT and the pages agree: every matching email appears exactly once |
| Search.TagQuery | src/api/routes.rs:408-415 | the names of exactly the tags linked to the email, in the database's order, none twice where tag names are unique |
| Search.CollectHits | src/api/routes.rs:404-448 | each hit of a page, in order, with its sorted tags and whether it has attachment rows; a failing query of a hit counts as an empty answer |

## Left out

- Connections, TLS, login and stream splitting: the stream is a byte sequence, one char per byte.
- UTF-8: `read_line` fails on ill-formed text and trimming knows Unicode spaces; the model has ASCII white space and no such failure. Literals pushed by `command` stay bytes instead of being decoded lossily.
- Memory exhaustion on a huge literal size.
- ImapClient.Client.Command: after a short read or at the end of the stream the model leaves an empty stream and returns, where the program fails or spins.
- ImapListResponse.ListResponseExactlyWhen: names with a line feed, which only a literal can carry, are not covered; the other untagged lines in the response have no quotes and no literals.
- SyncEngine.Archive.SyncFolder: one call at a time; overlapping tasks are the subject of the state machine in `Engine`, and `EngineRefines` shows that what one call leaves is a run of it, for folders that have a mailbox.
- EngineRefines.SyncAccountIsARun: rows are compared without their serial ids, and no folder is listed twice.
- Engine.Apply: an account added later is an account not spawned for until then, and its serial id is never reused.
- Storage.Exec: statements are atomic and file writes are not interrupted half-way; gaps in serial numbers after failed inserts are not shown.
- Columns that nothing here depends on (subject, sender, language, vectors), the embedding itself and the text ranking: opaque.
- Decoding of MIME parts, HTML stripping, SHA-256 and date parsing: parameters.
- Password encryption, authentication, settings, health and statistics handlers, attachment download, templates and language detection: only easy claims.
- The wall clock: ticks are free steps and the cutoff is a parameter of each pass.
- Body snippets of search results.
