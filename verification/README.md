# Verified model of the second-brain vault server

The server keeps a vault of Markdown notes that several clients edit at once. This project models the parts of it
whose correctness is hardest to see from the code, and proves what they promise.

| part | files | what is modelled |
|---|---|---|
| vault writer | `Writer`, `WriterInvariant`, `WriterSteps`, `WriterEffects`, `WriterLocks`, `WriterRuns`, `WriterFrames`, `WriterSafety`, `WriterPromises`, `WriterTurns`, `WriterHashes`, `WriterLockMap`, `WriterTexts`, `WriterProgress`, `WriterOutcomes` | every await of a mutation is one step; calls interleave freely, any await may fail, and the process may crash between any two steps. Names map to inodes and inodes to bytes |
| audit files | `AuditRotation` | the audit database over restarts, rotations and crashes |
| frontmatter | `Json`, `JsonLaws`, `Frontmatter`, `FrontmatterLaws`, `UpdateLaws`, `RepeatLaws`, `ValueLaws`, `ReadingLaws`, `HandWritten` | the printer, the line parser and the field update |
| marker sections | `Markers` | section replacement, appends and repairs of daily notes |
| path policy | `Policy` | the wildcard matcher and the generated regular expressions |
| vault paths | `Paths` | normalization of the paths that callers pass |
| key cache | `Jwks` | freshness, throttling and failures of key set fetches |
| dates | `Calendar`, `Dates`, `Instants`, `InstantLaws` | the Gregorian calendar, the ISO pattern, parsing, printing and local time |
| framework schemas | `Schema` | the indentation parser and overlay composition |
| index | `IndexRefresh`, `VaultIndex` | refreshes that overlap with mutations; the index tables |
| releases | `Release` | the publisher that may stop between two remote changes |

`Text` holds the string operations of the Rust standard library that the code uses.

Main results:

* **Every interleaving of the writer keeps one invariant** (`WriterRuns.StepKeeps`, `WriterRuns.Run`). From it follow
  mutual exclusion, no lost update, atomic publication, and what the audit store may claim. `WriterProgress` shows that
  the machine can also do what it is for.
* **Hashed text is never lost** (`WriterHashes.HashedTextStays`, `WriterHashes.SoftDeleteConserves`). Whatever becomes of
  a call after its hash check, a return, a failure or a crash, the note shows the hashed text until its first later
  change, and that change is made over this text by the call itself or by one that took the lock after it was gone. A
  soft delete makes it only after the text is in the trash.
* **Every change is the one that was asked for** (`WriterTexts.EveryChangeIsMade`, `WriterTexts.SuccessIsMade`): told by
  the note's fields, body and sections and not by the writer's own code. A refused call returns the code that tells why,
  and a call whose change is on disk can only return success (`WriterOutcomes`).
* **The lock map** holds an exactly stated set of identities after any run (`WriterLockMap.LockMapExactly`).
* **Any note is read as its lines say** (`ReadingLaws.EveryNoteReads`): keys, lists, strings and numbers are told by their
  grammar, for every text and not only for printed ones.
* **Printing and parsing frontmatter** are inverse under an exact condition; updates read back, and repeat without
  effect, under exact conditions.
* **The two glob engines** accept the same paths under an exact condition.
* **Audit records survive** every sequence of sessions, rotations, faults and crashes, each exactly once and in order,
  although the rename of a rotation would replace a file.
* **Key fetches are rate-bound**, and answers are told by the fetches before them; **ISO instants round-trip**
  exactly within TimeClip, at any offset; **schemas** are parsed into the one document their indentation spells;
  **publication** succeeds exactly on stated remote states, and resumes to the same state from any stopping point.

What the proofs found about the code:

* The hard and the soft glob engine differ for the respellings of `**/*.sync-conflict-*` in other ASCII case, and for
  nothing else (`Policy.EnginesAgreeExactly`). A spelling that only a wider fold makes the conflict pattern is compiled as
  a plain suffix pattern (`Policy.HardIsFoldedSoft`).
* A key other than the least one that starts with `---` cuts the frontmatter block off in front of it, so it and all
  later fields are lost when the note is read back (`FrontmatterLaws.LateDashKeyLoses`).
* An update that leaves no fields writes the bare body, which reads back only if the body itself opens no frontmatter
  block (`UpdateLaws.UpdateExactly`).
* The lock map can hold more entries than there are calls in flight: a dead entry stays until the next lookup sweeps it
  (`WriterSafety.DeadEntryStays`). A step exceeds the bound exactly when a call departs while the map has as many entries
  as there are calls (`WriterLockMap.BoundBreaksExactly`), and a run keeps it exactly when that never happens.
* Applying the same update twice changes the note again when a late key starts with dashes, when the body has a CR LF
  pair, and, for an update that leaves no fields, when the written body opens a block that is not one the printer makes
  (`RepeatLaws.SettlesExactly`).
* A daily note in which no start marker comes before a section's first end marker has no usable section after a repair
  either: nothing is added, or the whole block below the stray end (`Markers.RepairMakesUsable`).
* With a time to live of zero, a failed key fetch is not always followed by the cooldown: a failure at the very instant of
  the last success leaves no trace of having failed (`Jwks.CooldownHoldsExactly`).

Assumptions, all visible in the types and the `requires` clauses: SHA-256 is injective (a datatype constructor);
canonical identity is a fixed function of the path; temporary names are a name space of their own and unique ids do not
repeat; finite numbers print as numerals that parse back (`Frontmatter.Lawful`). I/O results, clocks, failures, and the
choices of the scheduler are parameters.

## Model

| member | source | states |
|---|---|---|
| `WriterRuns.StepKeeps` | src/vault/writer.rs:207-519 | every step of every call, every failing await and every crash keeps the invariant: one live lock object per identity with one owner, notes that show finished bytes, texts that stay as hashed until the call's own change, a change log that is a chain, and an audit store that holds exactly what the calls recorded |
| `WriterRuns.Run` | src/vault/writer.rs:207-290 | so does every run, of any length and interleaving |
| `WriterRuns.Reachable` | src/vault/writer.rs:207-290 | the invariant holds in every state a run from any vault of complete notes can end in |
| `WriterInvariant.InitInv` | src/vault/writer.rs:119-128 | a fresh writer over any vault of complete notes meets the invariant |
| `WriterLocks.LookUpKeeps` | src/vault/writer.rs:220-236 | sweeping dead entries and upgrading or inserting a lock keeps one lock object per identity in use |
| `WriterLocks.KeptExactly` | src/vault/writer.rs:224-226 | the sweep keeps exactly the identities that some call in flight still refers to |
| `WriterLocks.AcquireKeeps` | src/vault/writer.rs:236-245 | taking a free lock keeps one owner per lock |
| `WriterLocks.LeaveKeeps` | src/vault/writer.rs:219-290 | returning, at the end or early, keeps the invariant |
| `WriterLocks.CrashKeeps` | src/vault/writer.rs:191-194 | losing all calls and locks at once keeps disk, log and audit store consistent |
| `WriterSteps.CheckKeeps` | src/vault/writer.rs:345-403 | the checks of existence and base hash, and the choice of the new text, keep the invariant |
| `WriterSteps.FailKeeps` | src/vault/writer.rs:474-519 | any failing await inside a mutation keeps it |
| `WriterSteps.FillDisk` | src/vault/writer.rs:490-497 | writing the temporary file in any number of pieces touches no note and no other call's file |
| `WriterSteps.SealKeeps` | src/vault/writer.rs:490-500 | only a completely written file counts as prepared |
| `WriterEffects.PublishKeeps` | src/vault/writer.rs:501-512 | the link of a create and the rename of any other edit log exactly the change from the text that was hashed to the prepared text |
| `WriterEffects.LinkKeeps` | src/vault/writer.rs:420-453 | the trash link never replaces a name, although the call owns only its source's lock; it is retried under another name |
| `WriterEffects.UnlinkKeeps` | src/vault/writer.rs:403-415 | removing the note, after the link or as a hard delete, removes exactly the text that was hashed |
| `WriterSteps.StartAudit` | src/vault/audit.rs:65-73 | the start event, when it can be stored, is the first of its attempt |
| `WriterSteps.CompleteAudit` | src/vault/audit.rs:98-115 | a stored completion adds the success event and the provenance row together, or the failure event |
| `WriterSafety.OneLockPerIdentity` | src/vault/writer.rs:220-245 | in every reachable state, calls in flight share a lock object exactly when they share an identity, and at most one of them is inside |
| `WriterSafety.LookUpBound` | src/vault/writer.rs:224-235 | right after a lookup the lock map has no more entries than there are calls in flight |
| `WriterSafety.LockBound` | src/vault/writer.rs:224-235 | at any time it has no more entries than there were calls in flight at some moment of the run |
| `WriterSafety.DeadEntryStays` | src/vault/writer.rs:224-235 | a run after which no call is in flight and the map still has an entry |
| `WriterLockMap.LockMapExactly` | src/vault/writer.rs:220-236 | after any run the lock map lists exactly the identities that calls in flight refer to and those of calls that departed with their lock since the last lookup or crash |
| `WriterLockMap.BoundBreaksExactly` | src/vault/writer.rs:224-235 | from a state with no more entries than calls in flight, a step leads to more exactly when it lets a call depart while both numbers are equal |
| `WriterLockMap.BoundHoldsExactly` | src/vault/writer.rs:224-235 | throughout a run there are no more entries than calls exactly when no call ever departs while both numbers are equal |
| `WriterSafety.NoLostUpdate` | src/vault/writer.rs:358-419 | every logged change was made over exactly the text the last change of that name left, the caller's base is the hash of that text, and the new text is the one its mutation makes of it |
| `WriterSafety.OwnByName` | src/vault/writer.rs:403-453 | a logged change is a call's own mutation exactly when it is of the name the call was for; any other change is a trash link of another name |
| `WriterSafety.BaseIsPreviousResult` | src/vault/writer.rs:358-419 | of two successive changes of a name, the second one's base is the hash of what the first one left |
| `WriterSafety.BaseIsInitialText` | src/vault/writer.rs:358-419 | the first change of a name has the hash of the vault's first text as its base |
| `WriterSafety.StepPublishes` | src/vault/writer.rs:420-519 | a step points at most one note name elsewhere, from the logged old text to the logged new one, creates and trash links only onto free names, and leaves finished bytes alone |
| `WriterFrames.RunFrame` | src/vault/writer.rs:454-519 | over any run the change log only grows and prepared bytes never change |
| `WriterPromises.NotesAreWhole` | src/vault/writer.rs:454-519 | at every point of every run each note name shows the complete bytes of one finished prepare, the first ones or those of a logged change |
| `WriterPromises.NeverRewritten` | src/vault/writer.rs:454-519 | the bytes a reader reached through a name are never written again, whatever runs on |
| `WriterHashes.StepTurns` | src/vault/writer.rs:236-290 | every step keeps the order of turns: each call enters after all earlier owners of its identity are gone, and changes a name only in its own turn |
| `WriterHashes.TurnsNeverOverlap` | src/vault/writer.rs:236-245 | of two calls that ever owned the lock of one identity, one was gone before the other entered |
| `WriterHashes.HashedTextStays` | src/vault/writer.rs:358-419 | in every reachable state, for any call that hashed its note, in flight, returned, failed or lost: the note showed that text then, shows it as long as no later change of it is logged, and the first later one was made over it by this call or one that entered after this one was gone |
| `WriterHashes.SoftDeleteConserves` | src/vault/writer.rs:403-453 | in every reachable state the text a soft delete hashed is at the note's name, or was first changed there by a call that entered after this one was gone, or was removed by the delete itself after a logged link of it into the trash |
| `WriterPromises.RemovalAfterLink` | src/vault/writer.rs:431-437 | a soft delete removes the note only after a trash name under the trash directory has its text |
| `WriterPromises.SoftDeleteSucceeds` | src/vault/writer.rs:403-408 | a successful soft delete made exactly two changes: its text to the returned trash name, and its note gone |
| `WriterPromises.RowsAreDone` | src/vault/audit.rs:98-115 | a provenance row belongs to a change of the call's own path that reached the disk, with its hash, and a call has at most one |
| `WriterPromises.SuccessIffRow` | src/vault/audit.rs:98-115 | a success event is stored exactly when the attempt's start and its provenance row are |
| `WriterPromises.FailedMeansUntouched` | src/vault/audit.rs:81-87 | an attempt marked failed never changed its own path |
| `WriterPromises.UnrecordedIsPending` | src/vault/writer.rs:262-290 | a change on disk without provenance is still pending exactly when its start was stored |
| `WriterTexts.MakesExactly` | src/vault/writer.rs:383-402 | the text an edit makes: create and replace write the caller's content behind the caller's fields, a field update the note's own body behind its fields with the updates winning, a section replacement keeps every character outside the first markers |
| `WriterTexts.RefusedExactly` | src/vault/writer.rs:383-402 | an edit is refused exactly when one of the caller's fields cannot be written, or the section's markers are missing or in the wrong order, and with the code that says which |
| `WriterTexts.EveryChangeIsMade` | src/vault/writer.rs:340-419 | in every reachable state, every change a call ever made to its note is the one its mutation asks for, over the text that was there |
| `WriterTexts.SuccessIsMade` | src/vault/writer.rs:340-419 | a call returns success only with that change on disk, and with the hash of the text it made, or removed |
| `WriterTexts.SectionShows` | src/vault/writer.rs:524-542 | after a section replacement the section shows exactly the new text, and everything else is as before |
| `WriterProgress.CallCanEnter` | src/vault/writer.rs:219-270 | a call that arrives while nobody is inside its identity can take the lock and open its audit bracket |
| `WriterProgress.CreateCanSucceed` | src/vault/writer.rs:345-353 | from there, a create of a free name succeeds with the rendered note under that name and nothing else changed |
| `WriterProgress.EditCanSucceed` | src/vault/writer.rs:354-418 | an edit with the right base succeeds with any text its mutation may make of the note: that text on disk, its hash returned, its completion stored and no temporary file left |
| `WriterProgress.DeleteCanSucceed` | src/vault/writer.rs:403-408 | a soft delete with the right base moves the text to the returned trash name |
| `WriterProgress.HardDeleteCanSucceed` | src/vault/writer.rs:409-415 | a hard delete with the right base removes the note and nothing else |
| `WriterOutcomes.CallIsRefused` | src/vault/writer.rs:345-402 | a create of a taken name, an edit of a missing note, a wrong base, or a text that cannot be made returns just that error, marks the attempt failed and changes no note |
| `WriterOutcomes.InterruptedCallFails` | src/vault/writer.rs:474-519 | an await that fails before the change is on disk ends the call with its own code; no note changes and the temporary file is removed |
| `WriterOutcomes.LateCreateFails` | src/vault/writer.rs:501-507 | a create that loses the race for its name returns the same error as one that comes late, and its temporary file is gone |
| `WriterOutcomes.DeleteCanRetry` | src/vault/writer.rs:420-453 | a soft delete whose trash name is taken can move its note to another trash name, and returns that one |
| `WriterOutcomes.UnauditedGoesOn` | src/vault/writer.rs:238-262 | a call whose start event cannot be stored goes on without an attempt; only an invalid path turns it away |
| `WriterOutcomes.SuccessStands` | src/vault/writer.rs:262-290 | once a call's change is on disk, no continuation lets it return an error |
| `AuditRotation.AuditFiles.constructor` | src/vault/audit.rs:48-61 | starts with no files |
| `AuditRotation.AuditFiles.Open` | src/vault/audit.rs:48-61 | opens or creates the live store without touching what it holds |
| `AuditRotation.AuditFiles.RecordStarted` | src/vault/audit.rs:65-73 | appends a start event under a new attempt id, or nothing |
| `AuditRotation.AuditFiles.RecordCompleted` | src/vault/audit.rs:98-115 | appends the success event of the attempt, if there is one, and the provenance row, or neither |
| `AuditRotation.AuditFiles.RecordFailed` | src/vault/audit.rs:84-87 | appends the failure event, or nothing |
| `AuditRotation.AuditFiles.ReserveName` | src/vault/audit.rs:184-202 | the search for an archive name ends, at the first candidate that no file has, and creates that file empty |
| `AuditRotation.ReserveFree` | src/vault/audit.rs:186-201 | what a reservation creates is a name that did not exist, and it changes nothing else |
| `AuditRotation.AuditFiles.Rotate` | src/vault/audit.rs:152-210 | renames the live store onto a fresh reservation when it is over its limit and has no pending attempt, and leaves at most an empty file when it stops or fails in between |
| `AuditRotation.RotatesExactly` | src/vault/audit.rs:152-210 | the live store is moved away exactly when it has more rows than a limit that is not zero, every started attempt has an end and nothing fails, and then onto the first free name; else at most an empty file is added |
| `AuditRotation.NothingLost` | src/vault/audit.rs:152-210 | over any run, archives and live store together hold every inserted record exactly once, in order of insertion |
| `AuditRotation.ArchivesStay` | src/vault/audit.rs:184-209 | over any run, whatever faults and crashes happen, every archive keeps its name and its content, although a rename replaces the file it meets |
| `AuditRotation.NoneArchivedPending` | src/vault/audit.rs:161-172 | over any run no archive ever has a pending attempt |
| `AuditRotation.PendingStaysVisible` | src/vault/audit.rs:119-127 | the live store reports as pending exactly the attempts that are pending in the whole history |
| `Frontmatter.WithFrontmatter` | src/vault/writer.rs:546-594 | the printing loop fails exactly on an invalid key or a non-finite number, and otherwise writes the block and the content |
| `Frontmatter.TakeItems` | src/vault/markdown.rs:117-127 | takes the longest run of list items and stops behind it |
| `Frontmatter.ParseFrontmatter` | src/vault/markdown.rs:104-135 | the cursor loop reads the fields of all lines |
| `Frontmatter.ReadMarkdown` | src/vault/markdown.rs:63-103 | fields and body of a note |
| `Frontmatter.UpdateFrontmatter` | src/vault/writer.rs:393-401 | the field update on the text of a note |
| `Json.StringRoundTrip` | src/vault/markdown.rs:174-176 | decoding an encoded string gives it back, for every text with its quotes, newlines and control characters (section 7 of RFC 8259) |
| `Json.ListRoundTrip` | src/vault/markdown.rs:137-149 | so for lists of strings |
| `JsonLaws.DecodeStringExactly` | src/vault/markdown.rs:174-176 | a text is read as a string exactly when it is one of its spellings, escapes and surrogate pairs included, with blanks around it (section 7 of RFC 8259) |
| `JsonLaws.DecodeListExactly` | src/vault/markdown.rs:137-141 | a text is read as a list of strings exactly when it is one of its spellings (section 5 of RFC 8259) |
| `ValueLaws.ReadStringExactly` | src/vault/markdown.rs:174-181 | any trimmed text is read as the JSON string it spells, or else as itself without one quote at each end |
| `ValueLaws.ReadScalarExactly` | src/vault/markdown.rs:137-164 | any trimmed text behind a key is read as the JSON list it spells, the strings between its commas, a truth value, the number that prints so, or a string |
| `ReadingLaws.NoteReads` | src/vault/markdown.rs:63-135 | a note with any arrangement of keys with values, keys with item lines below, and other lines reads as the last value of each key and the text behind the block |
| `ReadingLaws.EveryNoteReads` | src/vault/markdown.rs:63-135 | and every note is of that kind, or has no block and is all body |
| `HandWritten.PlainListReads` | src/vault/markdown.rs:137-149 | `key: [a, b]` with plain items reads as exactly those items |
| `HandWritten.ItemLinesRead` | src/vault/markdown.rs:114-132 | a key with `- item` lines below it reads as exactly those items, and alone as the empty string |
| `HandWritten.QuotedTextReads` | src/vault/markdown.rs:174-181 | a single-quoted text loses its quotes |
| `HandWritten.PlainTextReads` | src/vault/markdown.rs:137-164 | an unquoted plain text is itself, unless it is a truth value or how a number prints |
| `HandWritten.FieldWritten` | src/vault/writer.rs:546-594 | one plain field is written as `key: value` between the delimiters, in front of the body |
| `HandWritten.FieldsWritten` | src/vault/writer.rs:556-590 | fields are written in order, one behind the other |
| `HandWritten.NumberReadsBack` | src/vault/writer.rs:573-576 | every finite number reads back as itself, and a negative zero as zero |
| `HandWritten.WritableExactly` | src/vault/writer.rs:556-573 | exactly these fields can be written: keys of letters, digits, `_` and `-`, and no number that is not finite |
| `HandWritten.SomeFormatIsLawful` | src/vault/markdown.rs:166-172 | the law that is assumed of number formats can be met |
| `FrontmatterLaws.ValueReads` | src/vault/markdown.rs:137-164 | each printed value is read back as the same kind of value with the same content |
| `FrontmatterLaws.RenderedReads` | src/vault/markdown.rs:91-135 | without a late dash key, the printed note reads back with its newlines normalized |
| `FrontmatterLaws.LateDashKeyLoses` | src/vault/markdown.rs:91-103 | with one, the block ends in front of it and all fields from there on are lost |
| `FrontmatterLaws.RoundTripExactly` | src/vault/writer.rs:546-594 | printing and parsing are inverse exactly when no key but the least starts with three dashes and the body has no CR LF |
| `UpdateLaws.ParsedNote` | src/vault/markdown.rs:104-135 | the fields of any note whatever can be written back |
| `UpdateLaws.UpdateExactly` | src/vault/writer.rs:393-401 | valid updates never fail on parsed fields, and the result reads back as the merged fields over the same body exactly under a condition on the parsed note and the updates |
| `UpdateLaws.MergedLookup` | src/vault/writer.rs:394-399 | in the merge the updates win and every other field is what it was |
| `UpdateLaws.UpdateIdempotent` | src/vault/writer.rs:393-401 | applying the same updates again leaves the text unchanged |
| `RepeatLaws.SettlesExactly` | src/vault/writer.rs:393-401 | for any note and any valid updates, a second application leaves the first one's text unchanged exactly under a condition on the parsed note and the merged fields |
| `RepeatLaws.LateDashNeverSettles` | src/vault/writer.rs:393-401 | with a late dash key the second application always changes the text |
| `RepeatLaws.ReprintedExactly` | src/vault/writer.rs:393-401 | reading and printing a text gives it back exactly when it has no field block and no CR LF, or is itself what the printer makes of fields that read back |
| `UpdateLaws.BodyWithoutCrlf` | src/vault/markdown.rs:63-66 | a note without carriage returns has a body without CR LF |
| `Markers.SameAcceptance` | src/vault/writer.rs:524-542 | section replacement and section lookup find the markers on the same notes |
| `Markers.ReplaceKeeps` | src/vault/writer.rs:524-542 | replacing a section keeps every character outside it, and the same section is found again around the new text |
| `Markers.AppendAddsEntry` | src/framework/daily.rs:65-80 | one append adds one entry to the section text and touches nothing else |
| `Markers.AppendsAccumulate` | src/framework/daily.rs:65-80 | after any run of appends the section is the old text and all entries, one under the other |
| `Markers.RepairMarkers` | src/framework/daily.rs:91-107 | the repair loop collects the template blocks of the sections that lack a marker |
| `Markers.RepairSupplies` | src/framework/daily.rs:91-107 | after a repair every section the template can supply has both markers |
| `Markers.RepairIdempotent` | src/framework/daily.rs:91-107 | repairing twice is repairing once, and the trimmed note stays in front |
| `Markers.RepairExactly` | src/framework/daily.rs:91-107 | a repair adds copies of the template's sections, of exactly those sections that lack a marker, in order, under the trimmed note, and leaves any other note alone |
| `Markers.RepairedExactly` | src/framework/daily.rs:91-107 | exactly when a repaired note has a usable section: its markers were in order, or the added text completes them, and no end marker comes first |
| `Markers.RepairMakesUsable` | src/framework/daily.rs:91-107 | with a template whose blocks hold only their own markers, a repair makes a configured section usable exactly when its markers were in order, or its end marker was missing and the template has the section |
| `Policy.MatchesWildcard` | src/vault/policy.rs:138-160 | the greedy leftmost matcher accepts exactly the texts of which some choice of gaps makes the pattern |
| `Policy.MatchesVaultPathPattern` | src/vault/policy.rs:119-136 | the soft matcher accepts its language, branch by branch |
| `Policy.PathMatchesAnyPattern` | src/vault/policy.rs:111-117 | a path matches a list exactly when it matches one of its patterns |
| `Policy.HardEqualsSoft` | src/vault/policy.rs:80-107 | without folding, the generated regular expression accepts what the soft matcher accepts |
| `Policy.RespelledExactly` | src/vault/policy.rs:94-96 | a pattern is compared with the conflict pattern up to the case of ASCII letters, and nothing else |
| `Policy.EnginesAgreeExactly` | src/vault/policy.rs:80-134 | the engines agree on all paths exactly for the patterns that are no respelling of the conflict pattern |
| `Policy.HardIncludesSoft` | src/vault/policy.rs:80-107 | with any fold that identifies ASCII case, the hard engine accepts all the soft one does |
| `Policy.HardIsFoldedSoft` | src/vault/policy.rs:80-107 | the case-insensitive engine is the case-sensitive one on folded spellings, for all paths, exactly when a pattern respells the conflict pattern by ASCII case if and only if its folded spelling is that pattern |
| `Paths.NormalizeVaultPath` | src/vault/path.rs:35-59 | the segment loop, with its length limit and its three refusals |
| `Paths.NormalForm` | src/vault/path.rs:29-59 | an accepted path is empty or made of segments that neither stay, climb nor hold a separator, without a drive in front, and no longer than the input |
| `Paths.NormalIdempotent` | src/vault/path.rs:29-59 | normalizing again changes nothing |
| `Paths.NormalExactly` | src/vault/path.rs:35-59 | the result for any input, told by its pieces between separators of either kind: the refusals in their order, and otherwise all pieces that name something, in order |
| `Paths.PlainUnchanged` | src/vault/path.rs:35-59 | a path that is already made of such segments is returned unchanged |
| `Paths.BytesExactly` | src/vault/path.rs:36-38 | lengths are counted in bytes of UTF-8 (section 3 of RFC 3629) |
| `Jwks.Cache.Consult` | src/auth/jwt.rs:164-202 | one consultation: the answer, whether it fetched, and the whole new cache |
| `Jwks.StoredTextParses` | src/auth/jwt.rs:194-198 | the stored text always parses and is within the size limit |
| `Jwks.FetchesApart` | src/auth/jwt.rs:182-188 | with a positive time to live, consecutive fetches are at least the smaller of it and 30 s apart, and 30 s apart after a failed or cancelled one |
| `Jwks.FetchRate` | src/auth/jwt.rs:182-188 | so n fetches take at least n - 1 times that long |
| `Jwks.FetchesExactly` | src/auth/jwt.rs:167-188 | when a visit fetches, for any time to live, told by the earlier fetches alone: their ages, outcomes and the keys they brought |
| `Jwks.AnswersAreFresh` | src/auth/jwt.rs:167-202 | a key set that is handed out was fetched by this visit or less than the time to live ago |
| `Jwks.AnswersExactly` | src/auth/jwt.rs:164-202 | what a visit is answered, told by the earlier fetches and the reply: usable keys without a fetch, else the keys of an acceptable body if it fetches, and none in exactly the remaining cases |
| `Jwks.FetchedKeysServe` | src/auth/jwt.rs:179-181 | keys that were just fetched serve the next visit within the time to live whose header one of them fits |
| `Jwks.CooldownHoldsExactly` | src/auth/jwt.rs:182-188 | a failed fetch is followed by the cooldown in every run exactly when the time to live is not zero |
| `Calendar.CivilNumber` | src/framework/dates.rs:43-45 | the closed form numbers the dates that counting day by day gives |
| `Calendar.NumberCivil` | src/framework/dates.rs:43-45 | and counting to a date's number gives the date |
| `Calendar.NumberKeepsOrder` | src/framework/dates.rs:43-45 | the closed form keeps the order of dates |
| `Calendar.FourCenturies` | src/framework/dates.rs:117-122 | four hundred years are a whole number of weeks and repeat the leap years |
| `Dates.ScanExactly` | src/framework/dates.rs:11-15 | the scan succeeds on exactly the texts the pattern matches, with the only captures there can be |
| `Instants.Milliseconds` | src/framework/dates.rs:86-96 | the digit loop reads three digits of a fraction of any length, padded with zeros |
| `Instants.OffsetMeaning` | src/framework/dates.rs:98-115 | both spellings of an offset denote its signed length, and one beyond 23:59 nothing |
| `InstantLaws.OffsetRoundTrip` | src/framework/dates.rs:68-73 | the wall time of an instant at any offset up to 23:59, followed by that offset in either spelling, parses to the instant |
| `InstantLaws.OffsetClockMeaning` | src/framework/dates.rs:32-73 | any clock text with an offset denotes its wall time less the offset, clipped, and nothing when a part is out of range |
| `InstantLaws.ZuluMeaning` | src/framework/dates.rs:32-73 | with `Z` it denotes its wall time |
| `InstantLaws.LocalRoundTrip` | src/framework/dates.rs:62-67 | a wall time without an offset is moved by the zone's displacement there |
| `InstantLaws.LocalClockMeaning` | src/framework/dates.rs:32-67 | so is any clock text without an offset, its date overflowing and its clock possibly short |
| `InstantLaws.MidnightExactly` | src/framework/dates.rs:49-60 | hour 24 is read as the midnight that ends the day, and only with zeros behind it |
| `Instants.DateOnlyMeaning` | src/framework/dates.rs:32-73 | a date-only text denotes the UTC midnight of its day, overflowing into the next month |
| `Instants.OverflowedNumber` | src/framework/dates.rs:39-45 | counting from the first of the month gives the date itself, or the surplus days in the next month |
| `Instants.IsoRoundTripExactly` | src/framework/records.rs:178-193 | printing and parsing an instant gives it back, in any zone, exactly when it is within TimeClip (section 15.9.1.14 of ECMA-262 5.1) |
| `InstantLaws.YearShape` | src/framework/records.rs:178-193 | instants are printed with a bare four-digit year, or a signed six-digit one outside 0 to 9999 |
| `Instants.ParsedSurvives` | src/framework/dates.rs:26-30 | a parsed date survives being printed and parsed again, whatever the zones |
| `Instants.SurrogateFits` | src/framework/dates.rs:123-128 | the surrogate year keeps leap years and weekdays, and every date of the year exists in it |
| `Instants.LocalEqualsDirect` | src/framework/dates.rs:117-145 | for a zone that repeats every 400 years out there, going through the surrogate year gives what the zone gives at the original year |
| `Schema.ParseMapping` | src/framework/schema.rs:148-176 | the cursor loop parses the mapping and advances over each of its lines |
| `Schema.SpelledExactly` | src/framework/schema.rs:148-176 | all lines spell exactly one well-indented document |
| `Schema.ParsesAll` | src/framework/schema.rs:148-176 | at top level the parser consumes every line and gives the meaning of that document |
| `Schema.PrintParses` | src/framework/schema.rs:148-176 | parsing a printed document, however deep its members are indented, gives its meaning and stops right behind it |
| `Schema.DistinctKeysKept` | src/framework/schema.rs:173-175 | with distinct sibling keys every item is kept, empty mappings included, and nothing else |
| `Schema.AddTypes` | src/framework/schema.rs:248-257 | the types of one overlay are added, or refused if one exists and the overlay does not override |
| `Schema.ComposeSchema` | src/framework/schema.rs:239-259 | the overlays are applied in turn up to the first that fails |
| `Schema.OrderDoesNotMatter` | src/framework/schema.rs:239-259 | overlays that do not override compose to the same types in every order, or fail in every order |
| `Schema.OverridesAreOrdered` | src/framework/schema.rs:253-256 | overriding overlays that disagree on a type do not |
| `Schema.ComposedExactly` | src/framework/schema.rs:239-259 | composition fails with the reason of the first overlay that cannot be added, and otherwise gives every name the type of the last overlay that has it, or of the base |
| `IndexRefresh.StepKeeps` | src/runtime.rs:218-242 | the index never shows what the disk has not reached, at every step of listing, reading and publishing |
| `IndexRefresh.IndexNeverGoesBack` | src/runtime.rs:218-242 | no path's version goes backward in the index |
| `IndexRefresh.OwnRefreshShows` | src/runtime.rs:388-392 | once its own refresh has succeeded, a mutation's version or a later one is in the index, then and ever after |
| `IndexRefresh.RefreshCanSucceed` | src/runtime.rs:218-242 | in any state a waiting mutation can have its refresh, after which the index shows the whole disk |
| `IndexRefresh.IndexChanges` | src/runtime.rs:218-242 | the index changes only when a refresh succeeds, and then to what that refresh listed and read |
| `IndexRefresh.VanishedFails` | src/runtime.rs:224-226 | a listed note that is gone when it is read fails the refresh, and the index stays |
| `VaultIndex.Index.constructor` | src/vault/index.rs:137-147 | starts with empty tables |
| `VaultIndex.Index.Rollback` | src/vault/index.rs:157-209 | a transaction that does not commit leaves the tables as they were when it began |
| `VaultIndex.Index.Rebuild` | src/vault/index.rs:157-209 | refills all tables in place; it succeeds exactly when every insert does, and when any one fails, of a note, a link or a conflict, all tables are as before |
| `VaultIndex.Index.Backlinks` | src/vault/index.rs:286-303 | the unblocked sources of links to a target, each once |
| `VaultIndex.Index.OutgoingLinks` | src/vault/index.rs:309-321 | the targets of an unblocked source |
| `VaultIndex.Index.ListConflicts` | src/vault/index.rs:347-372 | extending the last group in place groups all visible rows, each canonical path once |
| `VaultIndex.Converse` | src/vault/index.rs:286-321 | backlinks and outgoing links are converse relations for unblocked sources |
| `VaultIndex.PublishedLinks` | src/vault/index.rs:170-200 | after a rebuild both show exactly the links of the published notes |
| `VaultIndex.TargetCount` | src/vault/index.rs:309-321 | outgoing links list each target as often as the source links to it |
| `VaultIndex.GroupsShow` | src/vault/index.rs:347-372 | the groups show a conflict exactly when it is a row of which neither path is blocked |
| `Release.Publisher.constructor` | scripts/release.py:238-256 | starts from any remote state |
| `Release.Publisher.VerifyAssets` | scripts/release.py:164-188 | returns the names exactly when every listed asset is an expected one, once, and byte for byte |
| `Release.Publisher.Inspect` | scripts/release.py:256-274 | the read-only checks: refuse, already published, or go on with the assets present |
| `Release.Publisher.Upload` | scripts/release.py:293-299 | uploads the missing files in order until it is stopped |
| `Release.Publisher.Close` | scripts/release.py:300-314 | publishes only after a last complete check |
| `Release.Publisher.Publish` | scripts/release.py:238-315 | one run that may be stopped after any number of remote changes |
| `Release.RunIsSafe` | scripts/release.py:238-315 | the tag never moves, no asset is replaced, nothing published changes, and what is published has exactly the local files under a tag on the local commit |
| `Release.RunsAreSafe` | scripts/release.py:238-315 | so for any number of runs |
| `Release.FullRunSucceedsExactly` | scripts/release.py:238-315 | a run that is not stopped succeeds exactly when the checks pass and the repository locks what is published, or it was published already |
| `Release.MatchingExactly` | scripts/release.py:164-188 | assets match when they are some of the local files, and are complete when they are just these, in any order |
| `Release.DoneExactly` | scripts/release.py:238-315 | an unstopped run succeeds exactly when the tagged release is published, locked and has exactly the local files, and then changes nothing, or when main is at the commit, the repository locks, and there is no release and no other tag or one matching draft under the tag, and then there is one published release with exactly the local files |
| `Release.ResumeReachesTheSame` | scripts/release.py:269-315 | stopped between any two remote changes and run again, publication reaches the very state it would have reached at once |
| `Release.AnyRunsReachTheSame` | scripts/release.py:269-315 | so does any number of stopped runs and a last one that is not |

## Left out

- The second identity check after the lock is taken: identity is a fixed function of the path here, so it always succeeds, as on a case-sensitive file system.
- Dropping a single call's future in the middle: only failing awaits and crashes of the whole process end a call early, and the source marks these calls as not cancel-safe.
- The path guard, the policy check, the cooldown and directory creation are awaits that may fail at any time; which paths they refuse is only modelled in `Policy`.
- Symbolic links, permissions, fsync, and the rename and link semantics of real file systems beyond atomic name changes.
- The name of a second trash attempt is any text under the trash directory, not the stem with a unique id; the first attempt is the caller's path under the trash directory, without normalization.
- Resolution of paths against the file system (`canonical_vault_path_for_write` and its neighbours): the writer takes normalized paths and a fixed identity function.
- SHA-256, JWKS decoding, key compatibility, signatures and claims: a constructor or parameters; the verification loop over issuers is not modelled.
- Number formatting and parsing beyond the one law `Frontmatter.Lawful`; no floating-point arithmetic.
- Titles, tags, aliases, source ids and links of a parsed note.
- Unicode normalization and real case folding tables: `Policy` takes a fold per character.
- Time zone tables: a zone is any displacement function; `Instants.LocalEqualsDirect` states the law it needs.
- Sub-millisecond clock readings: instants are whole milliseconds.
- Schema validation after parsing, scalar parsing and comment removal (a parameter of the parser), and presets.
- Error messages: errors are codes, and composition does not say which type name clashed.
- SQL, full-text search and result order: tables are sequences; an audit transaction is a single step and an index transaction keeps a journal of the tables; the rows of `list_conflicts` come grouped by canonical path.
- Cancellation during an index rebuild, which the source marks as not cancel-safe.
- The draft that changes under the publisher's feet: there is no other actor, main does not move during a run, and an upload either happens or does not.
- HTTP, MCP, configuration, logging, OCR, skills, and release planning.
