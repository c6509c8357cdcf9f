# Coppermind, modelled and proved

Coppermind keeps people's notes as files. The filesystem is the truth; database mirrors, receipts and
journals have to converge on it, however a process ends. This project models the parts of the
repository where that is hard and proves what they promise, for every input, every interleaving and
every point of interruption.

| file | what it models |
|---|---|
| `CalendarImport.dfy` | merging imported events by revision, in place in a dictionary |
| `CalendarMirror.dfy` | the mirror, the grouped printer of contact evidence, the JSON grammar and the streaming reader that take it apart again |
| `CalendarArchive.dfy` | the archive as a machine of durable writes and crashes, and the class whose methods are runs of that machine |
| `DossierLedger.dfy` | identities, addresses, redirects and facts: create, change, merge, split |
| `DossierContribution.dfy`, `DossierService.dfy` | one contribution pass as a relation, and the service whose loops carry it out |
| `DossierUndo.dfy` | a split, the contribution pass that follows it, and the merge that takes it back |
| `DossierRuns.dfy` | whole histories of the ledger, any operation after any other |
| `Review.dfy` | enrichment jobs, approvals that survive interruption, and the review that applies them |
| `NoteLinks.dfy` | links in a body, and their replacement one page after another |
| `FilingPaths.dfy`, `FilingPages.dfy` | where a source page is filed, and one such page over any number of filing attempts, each stopped anywhere |
| `Filing.dfy` | monthly filing of a note with its journal |
| `ArtifactRecords.dfy`, `ArtifactRuns.dfy` | archive and manifests; creating, revising and putting back, each as a machine of its steps |
| `Artifacts.dfy` | the artifact store, its browsable copies that devices may edit, and an account of everything that ever went from the vault |
| `MaintenanceGate.dfy`, `Authenticator.dfy`, `Notices.dfy` | the re-entrant gate, the cache over a reloadable snapshot, and optimistic updates, each over all interleavings |
| `Lines.dfy`, `Frontmatter.dfy`, `Embeds.dfy`, `Naming.dfy`, `NoteHistory.dfy` | splicing frontmatter, cutting a body into prose and code, free file names, and evidence of removals from Git |
| `Results.dfy`, `Ordering.dfy`, `Seqs.dfy` | an option and a result type, the order on strings, facts about sequences and sets |

How the model is stated:

- One file creation or replacement is one atomic step, as `coppermind/atomicio.py:1-8` intends. A method
  with a parameter `power` completes that many durable writes and is then interrupted, and its contract
  holds for every `power`. In `Artifacts.dfy` each durable write may instead fail or be the last one.
- `Sync`, `Devices`, `World` and `Others` stand for whatever a device, another task or the intake of
  sources may do between two steps. They assign arbitrary values, with two exceptions in `Filing.dfy`: a
  device neither deletes a source page nor makes it another source's, and where a page is changes only
  by the filing of another note that cites its source.
- Tasks that share an event loop are interleaved between their awaits; one action is what a task does
  without suspending.
- A hash is modelled by what it is a hash of, so it is injective. Every replacement of the calendar's
  catalog gives it a signature it never had.
- The fields `past`, `views`, `history`, `removed` and `log` record a whole run, so that a contract can
  speak of it; `views` also says who brought each content of the vault about. `since` in a record says
  how much of `past` there was when the record was made, so that "the note was seen" means: then or
  afterwards; `ours` says which versions in `past` the filing itself wrote.
- `visits` counts what others did and what failed from outside. A call during which it does not grow is
  undisturbed, and the contracts say when such a call is refused, and what exactly it leaves: so a
  method that always gave up would not meet them.

What turned out not to hold as one might read it, each with a proof:

- A merge order can be refused even though another order of the same events is accepted
  (`CalendarImport.OrderCanDecide`); `CalendarImport.MergeSucceedsExactly` says which orders are accepted.
- Writing the catalog and rebuilding does not return an empty evidence set when an event names an
  addressable person; `CalendarMirror.RebuildRestoresExactly` gives the exact condition and
  `CalendarArchive.ArchiveIsSafe` shows that no run gets there.
- Splitting a dossier and merging it back does not always restore its facts
  (`services/store/coppermind_store/entities.py:818-889`). A chosen fact that waited for its evidence no
  longer waits; and since every change begins with a contribution pass
  (`services/store/coppermind_store/entities.py:718` and `:545`), a note that names a moved address is
  recorded with the new dossier, and that record comes along. `DossierUndo.UndoneExactly` says when the
  facts are restored, `DossierUndo.MovedAddressLeavesAFact` is an input for which they are not.
- A second contribution pass changes nothing at all, but only because a new dossier's identity is one no
  note has seen (`DossierContribution.FreshSecondPassChangesNothing`); without that,
  `DossierContribution.SecondPassChangesNothing` says exactly when.
- A review cut short after its receipt was completed leaves suggestions waiting for good: the request
  repeated finds the receipt complete and returns at once
  (`services/store/coppermind_store/note_lifecycle.py:155-156`). `Review.CutShortWaitsForGood` says exactly
  which jobs, `Review.AJobIsLeftWaiting` is such a run.
- A source that leaves a note's sources and comes back loses the page paths recorded for it before
  (`services/store/coppermind_store/filing.py:268-288`): `Filing.EverCoveredExactly` says when, and in the
  three plans of `Filing.ReturningSourceKeepsItsLinks` the body keeps its links to the former page.
- A filing interrupted between the manifest and the removal of the old page leaves that page for good
  (`services/store/coppermind_store/filing.py:377-384`): whatever filings, edits and revisions follow, it
  stays if and only if the manifest no longer names it (`FilingPages.OldPageStaysExactly`), and
  `FilingPages.StoppedInBetween` is a run that ends so.
- A former link can survive its replacement in four ways (`NoteLinks.LinkCanSurviveExactly`); where the
  new link has brackets at its ends only, there is one: the former link contains it
  (`NoteLinks.SingleCanSurviveExactly`). The links the program replaces never do, whatever brackets a
  title has (`FilingPaths.FormerLinkHoldsNoFiledOne`). All this asks of the sources folder that its name
  holds no double brackets: a folder named after one of its own filed pages defeats it, see
  `FilingPaths.FolderCanDefeatReplacing`.
- Undoing a failed creation deletes the browsable copy even when a device has edited it meanwhile
  (`services/store/coppermind_store/artifacts.py:836-841`): `ArtifactRuns.UndoingLosesExactly` says in
  which runs, `ArtifactRuns.AnEditedCopyIsDeleted` is one. Putting a moved copy back likewise removes
  the file it was found in without another look
  (`services/store/coppermind_store/artifacts.py:1386-1445`): `ArtifactRuns.TakingLosesExactly` and
  `ArtifactRuns.AnEditedFileIsTaken`. In no history does anything else go from the vault that is not on
  record: `Artifacts.UnrecordedLossesAreOfTwoKinds`.
- A revision that breaks after its copy was placed, and cleans up, leaves bytes in the vault that are
  archived nowhere, unless the archive holds them under another number:
  `ArtifactRuns.ShownUnarchivedExactly`, and `ArtifactRuns.ARevisionLeavesBytesUnarchived` for a run.
- Refiling can rewrite a wiki embed twice, although `coppermind/embeds.py:117-120` says it never does: the
  artifacts folder may have a closing bracket in its name, and then the embed of a filed path is none
  (`Embeds.BracketDefeatsRefiling`). `Embeds.RefilingRewritesOnceExactly` says for which filed paths no text
  is ever rewritten twice.
- A verification that outlasts its snapshot still grants its principal: `Authenticator.LateGrantsExactly`
  says when, and `Authenticator.SlowVerificationOutlivesItsSnapshot` is such a run. The cache never serves
  one that late.
- A composed document with an empty mapping does not split back when its body opens like frontmatter,
  see `Frontmatter.ComposeReadsBackExactly`; and splitting alone, without the check the writers make,
  can lose body text, see `Frontmatter.SplitLosesNothingExactly`.
- When one commit deletes two different contents of the same note, only one of them counts as
  evidence, see `NoteHistory.SecondCopyOverlooked`.

## Model

| member | source | states |
|---|---|---|
| `CalendarImport.NewerIsStrictOrder` | services/store/coppermind_store/calendar_import.py:98-102 | revisions, SEQUENCE before LAST-MODIFIED, are totally ordered, so "newer" picks one winner |
| `CalendarImport.Merged.MergeEventInto` | services/store/coppermind_store/calendar_import.py:288-314 | the in-place merge of one event is the merge of the specification, and a conflict is reported before anything changes |
| `CalendarImport.MergeEvents` | services/store/coppermind_store/calendar_import.py:317-324 | a whole import is the fold of single merges, or the first conflict in order |
| `CalendarImport.UnionWitnesses` | services/store/coppermind_store/calendar_import.py:306-314 | merging two provenance lists keeps every witness of both and adds none |
| `CalendarImport.IdentitiesKept` | services/store/coppermind_store/calendar_import.py:288-324 | a successful merge has exactly the identities there were and the imported ones: none is ever dropped |
| `CalendarImport.MergeAllSummarises` | services/store/coppermind_store/calendar_import.py:288-324 | what is kept for an identity, beside a row stored before, is the maximal revision among that row and all the events, with the union of their witnesses |
| `CalendarImport.HighestWins` | services/store/coppermind_store/calendar_import.py:98-102 | the highest SEQUENCE wins, and among equal ones the latest LAST-MODIFIED |
| `CalendarImport.KeptIsFirst` | services/store/coppermind_store/calendar_import.py:305-314 | the row kept is, but for its witnesses, the first of its revision among the stored row and the events in order: title, people and all else are that one's |
| `CalendarImport.SortedInOrder` | services/store/coppermind_store/calendar_import.py:306-314 | witnesses are kept in the order of their import, source and entry |
| `CalendarImport.MergeOrderIndependent` | services/store/coppermind_store/calendar_import.py:288-324 | two orders of the same events that both merge agree on identities, revisions, content and witnesses |
| `CalendarImport.MergeSucceedsExactly` | services/store/coppermind_store/calendar_import.py:294-304 | beside any stored rows an order is accepted if and only if every event that contradicts a stored or earlier one finds a newer revision there already |
| `CalendarImport.NoOrderFailsExactly` | services/store/coppermind_store/calendar_import.py:294-304 | no order is refused if and only if equal revisions of an identity always carry equal content |
| `CalendarImport.OrderCanDecide` | services/store/coppermind_store/calendar_import.py:294-304 | a revision that settles a contradiction, put between the two, is accepted, and put after them is too late |
| `CalendarMirror.WriteContacts` | services/store/coppermind_store/calendar_mirror.py:200-226 | the grouping writer prints every row under its contact, with the separators of one JSON object |
| `CalendarMirror.ReadContacts` | services/store/coppermind_store/calendar_mirror.py:140-158 | the streaming loop is a run of the reader over the tokens, and refuses what is no complete JSON value |
| `CalendarMirror.PrintedIsRead` | services/store/coppermind_store/calendar_mirror.py:140-226 | for every list of evidence rows the reader gets back from the printer's output exactly those rows, and reports evidence exactly when there is some |
| `CalendarMirror.ContactsHeadedOnce` | services/store/coppermind_store/calendar_mirror.py:201-226 | rows ordered by contact give strictly increasing keys, so no contact is printed twice |
| `CalendarMirror.RebuildRestoresExactly` | services/store/coppermind_store/calendar_mirror.py:109-234 | writing the catalog and rebuilding from it returns the same mirror if and only if it has evidence or no event names an addressable person |
| `CalendarMirror.Mirror.Rebuild` | services/store/coppermind_store/calendar_mirror.py:109-177 | the rebuilding loop leaves exactly the content the file stands for, deriving evidence only if the file has none |
| `CalendarMirror.Mirror.DeriveEvidence` | services/store/coppermind_store/calendar_mirror.py:159-175 | the evidence of a catalog without contact records is that of every addressable person of every event |
| `CalendarMirror.Mirror.AddPeople` | services/store/coppermind_store/calendar_mirror.py:54-64 | each addressable person adds one evidence row, and a row that is there already is not doubled |
| `CalendarMirror.Mirror.PutEvent` | services/store/coppermind_store/calendar_mirror.py:96-106 | one event row is replaced and nothing else |
| `CalendarMirror.Mirror.WriteCatalog` | services/store/coppermind_store/calendar_mirror.py:180-234 | the promoted file holds all of the transaction's content, its evidence ordered by contact |
| `CalendarArchive.StepKeeps` | services/store/coppermind_store/calendar_archive.py:113-320 | every durable write and every crash keeps the archive's invariant |
| `CalendarArchive.ArchiveIsSafe` | services/store/coppermind_store/calendar_archive.py:113-306 | over every run: the file is readable, a mirror with its signature has its contents, no import is listed twice, a succeeded receipt is listed, and the events are the listed imports merged in order |
| `CalendarArchive.ImportOrderDoesNotMatter` | services/store/coppermind_store/calendar_archive.py:203-306 | two archives that list the same imports in different orders show the same calendar |
| `CalendarArchive.PromotionRuns` | services/store/coppermind_store/calendar_archive.py:278-305 | count, promotion, commit and settling in that order are a run of the machine, and leave what a promotion should |
| `CalendarArchive.ContributionAt` | services/store/coppermind_store/calendar_archive.py:229-240 | what an import contributes are its events as parsed, each with one witness for each entry it was found in, in order |
| `CalendarArchive.AppliesExactly` | services/store/coppermind_store/calendar_archive.py:241-276 | one event after another is taken, without a refusal, if and only if none contradicts a stored or earlier one, unless a newer revision came first, and all identities fit |
| `CalendarArchive.CountedTook` | services/store/coppermind_store/calendar_archive.py:241-300 | an accepted import leaves its identities beside those that were there, each with the maximal revision; the evidence that was there and that of its people; and the conflicts not revised past |
| `CalendarArchive.Archive.Catalog` | services/store/coppermind_store/calendar_archive.py:113-128 | the mirror is rebuilt exactly when its stored signature differs; it is then what the file stands for, nothing else changes, and only an unreadable file is reported so |
| `CalendarArchive.Archive.Submit` | services/store/coppermind_store/calendar_archive.py:143-191 | the original is kept before its receipt, and refused exactly for its type, its size or a foreign original under its name; bytes seen before keep the receipt they have, which waits again exactly if it failed for now |
| `CalendarArchive.Archive.Contribute` | services/store/coppermind_store/calendar_archive.py:229-240 | every parsed event carries a witness for each entry it was found in |
| `CalendarArchive.Archive.Import` | services/store/coppermind_store/calendar_archive.py:241-276 | the loop over the events has the result of the specification: the merged content within the budget, or the first refusal |
| `CalendarArchive.Archive.DropSuperseded` | services/store/coppermind_store/calendar_mirror.py:82-93 | a retained conflict ends exactly when its event has been revised past it |
| `CalendarArchive.Archive.Promotion` | services/store/coppermind_store/calendar_archive.py:278-305 | the promotion leaves file, mirror, signature and receipt as the machine says |
| `CalendarArchive.Archive.Process` | services/store/coppermind_store/calendar_archive.py:203-306 | a run of the machine: an import is taken if and only if there is time, its original parses and its events are accepted beside what the archive holds; then the imports are the old ones and this one, with its events merged in; any other receipt is settled without a change to file or mirror, and can be retried exactly if time ran out |
| `DossierLedger.EmailIdempotent` | services/store/coppermind_store/entities.py:69-77 | a normalised address is its own normal form, so the index and the dossiers agree on it |
| `DossierLedger.EmailExactly` | services/store/coppermind_store/entities.py:69-77 | an address is taken exactly if something stands on both sides of its last "@", it is short enough and nothing forbidden is in it; only what stands behind that "@" is put in lower case |
| `DossierLedger.MakeMeans` | services/store/coppermind_store/entities.py:220-249 | a dossier is made exactly if every address is one and none belongs to a dossier that is its own identity; it has those addresses and no facts, and nothing else changes |
| `DossierLedger.MakeKeepsInv` | services/store/coppermind_store/entities.py:220-249 | creating a dossier keeps every identity invariant |
| `DossierLedger.ChangeKeepsInv` | services/store/coppermind_store/entities.py:715-816 | rename, alias and address edits, claims, corrections, withdrawals, retirement and restoration keep every identity invariant |
| `DossierLedger.ChangeMadeExactly` | services/store/coppermind_store/entities.py:715-816 | a change is made exactly if it is allowed for the version it was asked of |
| `DossierLedger.ChangeMeans` | services/store/coppermind_store/entities.py:715-816 | it bumps the version, and touches no other dossier and nothing of this one but what it is for |
| `DossierLedger.MergeGathersFacts` | services/store/coppermind_store/entities.py:865-873 | a merge loses no fact id, moves none of the target's, and a fact is confirmed afterwards exactly if either side had it confirmed |
| `DossierLedger.MergeGathers` | services/store/coppermind_store/entities.py:865-873 | a withdrawn fact gives way to the other side's confirmed one, every other stays as it is, and behind them come exactly the new ones, as they were |
| `DossierLedger.MergeFollowsTargets` | services/store/coppermind_store/entities.py:863-889 | every fact of every dossier keeps its place, id, state, value and evidence, at the target the gathered facts of both: and it is about somebody exactly if it was before, namely the root, in the merged ledger, of whom it was about |
| `DossierLedger.MergeTouches` | services/store/coppermind_store/entities.py:863-889 | besides facts a merge touches versions, the redirect of the merged dossier, and names and addresses of the target, which are those of both; a version grows exactly where the merge is recorded or a fact was about the merged one |
| `DossierLedger.MergeKeepsInv` | services/store/coppermind_store/entities.py:818-889 | a merge keeps redirects a forest of one kind per tree, addresses owned once and facts aimed at live identities |
| `DossierLedger.SplitKeepsInv` | services/store/coppermind_store/entities.py:852-862 | a split keeps every identity invariant |
| `DossierLedger.SplitMeans` | services/store/coppermind_store/entities.py:831-862 | a split gives the new dossier copies of exactly the chosen facts and addresses; the old one keeps every fact in its place, the chosen ones withdrawn for good, and the other addresses |
| `DossierLedger.Follow` | services/store/coppermind_store/entities.py:421-422 | a walk along redirects ends, at the one root of the tree, which is of the same kind |
| `DossierContribution.PassIsSound` | services/store/coppermind_store/entities.py:391-463 | after a pass every confirmed note-backed fact has its reviewed note, no fact is lost or doubled, and no owner's withdrawal is undone |
| `DossierContribution.PassRecordsMentions` | services/store/coppermind_store/entities.py:400-446 | after a pass every note that mentions a dossier has its fact there; each new fact records such a mention, confirmed, with the note's title, version and path |
| `DossierContribution.LinkIsRead` | services/store/coppermind_store/entities.py:400-424 | a link is read under any key, with or without an extension and a text to show |
| `DossierContribution.AddressIsRead` | services/store/coppermind_store/entities.py:400-424 | an address is read under the chosen keys only, and only if it is one |
| `DossierContribution.SecondPassChangesNothing` | services/store/coppermind_store/entities.py:391-463 | a second pass over the same notes changes nothing at all if and only if every note that links to a dossier the first one created has its fact there already |
| `DossierContribution.FreshSecondPassChangesNothing` | services/store/coppermind_store/entities.py:391-463 | with new dossiers under identities no note has seen, a second pass over the same notes changes nothing at all |
| `DossierContribution.PersonAdded` | services/store/coppermind_store/entities.py:412-420 | a dossier made for an unknown address keeps the invariant and everything the pass has done so far |
| `DossierContribution.FactAdded` | services/store/coppermind_store/entities.py:425-446 | a metadata fact added for one mention keeps the invariant and everything the pass has done so far |
| `DossierContribution.SettlingCompletes` | services/store/coppermind_store/entities.py:447-463 | once every note was dealt with, settling makes the ledger the result of a whole pass |
| `DossierUndo.SplitPassMergeBack` | services/store/coppermind_store/entities.py:715-889 | split, contribution pass, merge back: every old fact is in its old place, a chosen one confirmed exactly if its settled copy is; behind them exactly one fact for each note that mentions either dossier and had none; the addresses are back, and the merge touches no other dossier |
| `DossierUndo.RestoredExactly` | services/store/coppermind_store/entities.py:715-889 | the facts are what they were if and only if settling changes none, no chosen one waited for its evidence, and no note gives either dossier a new mention |
| `DossierUndo.MentionsNewExactly` | services/store/coppermind_store/entities.py:391-424 | after a split a note mentions the new dossier exactly if it names a moved address as an attendee or links to the new page |
| `DossierUndo.UndoneExactly` | services/store/coppermind_store/entities.py:715-889 | from a ledger that is up to date no other dossier changes at all, and the facts are restored if and only if no chosen one waited and no note mentions the new dossier |
| `DossierUndo.SplitAndMergeBack` | services/store/coppermind_store/entities.py:715-889 | the service's own three calls in a row have that result |
| `DossierUndo.MovedAddressLeavesAFact` | services/store/coppermind_store/entities.py:715-889 | an input for which the facts are not restored: a note names the moved address |
| `DossierRuns.ContributionKeepsInv` | services/store/coppermind_store/entities.py:391-463 | a contribution pass keeps every identity invariant |
| `DossierRuns.StepKeepsInv` | services/store/coppermind_store/entities.py:391-889 | every operation on the ledger keeps every identity invariant |
| `DossierRuns.RunPersists` | services/store/coppermind_store/entities.py:391-889 | over every history dossiers stay, keep their kind, and a redirect stays as it is |
| `DossierRuns.LedgerIsSafe` | services/store/coppermind_store/entities.py:220-889 | over every history: redirects are a forest of one kind per tree, no address belongs to two live dossiers, facts are about live ones, and an identity that once led to another leads wherever that one does |
| `DossierService.EntityService.Create` | services/store/coppermind_store/entities.py:702-713 | the new dossier is that of the specification, refused exactly if an address is malformed or belongs to another dossier |
| `DossierService.EntityService.Change` | services/store/coppermind_store/entities.py:715-816 | one change has the result of the specification, or its problem and no effect |
| `DossierService.EntityService.Merge` | services/store/coppermind_store/entities.py:863-889 | the merging loops leave the merged ledger of the specification, exactly when a merge is allowed |
| `DossierService.EntityService.SplitOff` | services/store/coppermind_store/entities.py:831-862 | the splitting loops leave the split ledger of the specification, exactly when a split is allowed |
| `DossierService.EntityService.EmailIndex` | services/store/coppermind_store/entities.py:394-399 | the address index holds every address of an unredirected dossier and nothing else |
| `DossierService.EntityService.Contribute` | services/store/coppermind_store/entities.py:391-463 | the loops over notes and mentions carry out a whole contribution pass and keep the invariant |
| `Review.NothingRemainsExactly` | services/store/coppermind_store/context_service.py:1143-1150 | counting distinct decisions tells exactly whether every suggestion is decided |
| `Review.RejectionKeepsJob` | services/store/coppermind_store/context_service.py:1125-1151 | a rejection adds its one decision, keeps decisions distinct and in range, and closes the job exactly when nothing remains: as applied if anything was approved, and as rejected if not |
| `Review.ApprovalKeepsJob` | services/store/coppermind_store/context_service.py:1290-1356 | an approval carried out keeps decisions distinct, in range and each backed by a note version that was reached |
| `Review.SelectedExactlyOnce` | services/store/coppermind_store/note_lifecycle.py:141-271 | a completed review has each selected suggestion approved exactly once, by an approval authorised after the review began; and a version of the note since then shows its edit made: each changed key with its new value, the unset ones gone, all else as it was, and the path of a rename |
| `Review.WaitsExactly` | services/store/coppermind_store/note_lifecycle.py:267-278 | over every run of ending a review, cutting it short and asking again, a job waits if and only if it waited before and was not dismissed in that run |
| `Review.CutShortWaitsForGood` | services/store/coppermind_store/note_lifecycle.py:155-278 | once the receipt is complete and nobody is at work on it, a job still waits after any number of repeated requests if and only if it was not dismissed before |
| `Review.AJobIsLeftWaiting` | services/store/coppermind_store/note_lifecycle.py:267-278 | a run that ends with a completed receipt and a job left as it was, whatever job waits, and whatever is asked afterwards |
| `Review.Reviews.Reject` | services/store/coppermind_store/context_service.py:1125-1151 | a rejection takes effect exactly when it is possible and not interrupted |
| `Review.Reviews.Authorise` | services/store/coppermind_store/context_service.py:1153-1286 | an authorisation is on record before any write, exactly if the suggestion is on offer for the note as it is; it says the edit asked for and what that makes of the note; a note that moved on makes the job stale instead |
| `Review.Reviews.Finish` | services/store/coppermind_store/context_service.py:1290-1356 | a job leaves `applying` only when this call saw the note at the recorded content and path; until then the job is as it was; undisturbed it does so wherever the approval can still be carried out |
| `Review.Reviews.Approve` | services/store/coppermind_store/context_service.py:1153-1288 | an approval that completes adds exactly its own decision, and the edit asked for was made of the note in this call, key by key; undisturbed it is refused only where the suggestion is not on offer for the note as it is |
| `Review.Reviews.Resume` | services/store/coppermind_store/context_service.py:1358-1363 | an interrupted approval taken up again completes with the decision on record, and undisturbed does so wherever it can still be carried out |
| `Review.Reviews.Begin` | services/store/coppermind_store/note_lifecycle.py:141-210 | a review is recorded before it has any effect, and refused exactly if it is not of this note as it is; the same request finds its record again |
| `Review.Reviews.Recover` | services/store/coppermind_store/note_lifecycle.py:216-222 | approvals that completed just before an interruption are found again in the job's decisions |
| `Review.Reviews.ApplyOne` | services/store/coppermind_store/note_lifecycle.py:223-242 | one selected suggestion is taken up, approved or found approved, and only then put down in the receipt |
| `Review.Reviews.Bring` | services/store/coppermind_store/note_lifecycle.py:211-271 | a review on record is brought up to its completed receipt from wherever it was left |
| `Review.Reviews.ApplySelected` | services/store/coppermind_store/note_lifecycle.py:223-242 | interrupted anywhere, and whatever other requests approve or reject in between, the receipt says what was applied; when it ends, everything selected was; undisturbed it is not refused |
| `Review.Reviews.Conclude` | services/store/coppermind_store/note_lifecycle.py:243-271 | the review becomes complete only after everything selected was applied and this call saw the note reviewed, with the content on record, and nothing but that mark changed; otherwise it stays open |
| `Review.Reviews.DismissRemaining` | services/store/coppermind_store/note_lifecycle.py:272-278 | one dismissal for each job that waits: a run of the ending, left with none waiting if and only if there were no more of them than writes before the interruption, and cut short with one waiting otherwise |
| `Review.Reviews.Complete` | services/store/coppermind_store/note_lifecycle.py:127-280 | interrupted anywhere, receipt and jobs stay consistent; once complete, every selected suggestion is approved and no job waits; a request whose receipt is complete already changes nothing; undisturbed a fresh one that can be completed is |
| `NoteLinks.ReplaceMovesLinks` | services/store/coppermind_store/filing.py:396-401 | replacing any text by links to one page brings in no other link and leaves no link that is that text; only links that contain the new one are not spoken of |
| `NoteLinks.LinkCanSurviveExactly` | services/store/coppermind_store/filing.py:396-401 | for all pages: some body keeps a former link if and only if one link contains the other, or the end of the new one begins the former, or the new one begins with an end of the former that no earlier match covers |
| `NoteLinks.SingleCanSurviveExactly` | services/store/coppermind_store/filing.py:396-401 | where the new link has brackets at its ends only, that is the case if and only if the former link contains it |
| `NoteLinks.RewrittenLinks` | services/store/coppermind_store/filing.py:396-401 | after all replacements, in any order, no link to a former page is left, whatever its title: unless it contains a new link |
| `NoteLinks.Rewrite` | services/store/coppermind_store/filing.py:396-401 | the loop of replacements is the composition of all of them |
| `NoteLinks.ReplacedAtCuts` | services/store/coppermind_store/filing.py:396-401 | a text cut at its leftmost matches is replaced at exactly these cuts |
| `NoteLinks.RewrittenComesOf` | services/store/coppermind_store/filing.py:396-401 | a rewritten body comes of the body by exchanging former links for the new link of the same page, and by nothing else |
| `NoteLinks.NoneExchanged` | services/store/coppermind_store/filing.py:396-401 | a body without a former link stays as it is |
| `NoteLinks.StretchesStay` | services/store/coppermind_store/filing.py:396-401 | where former and new links stand apart, the body is stretches and former links, and becomes the same stretches in the same order, with the new link of its page in the place of each |
| `FilingPaths.FiledPathIsStable` | services/store/coppermind_store/filing.py:117-130 | filing a page again, under whatever month, gives the place it has |
| `FilingPaths.FiledPlace` | services/store/coppermind_store/filing.py:117-130 | a page filed for the first time gets its source's name in the folder of the month, in that of the year; a flat one keeps name and month there; any other stays |
| `FilingPaths.FiledPageKeepsItsMonth` | services/store/coppermind_store/filing.py:117-130 | a filed page keeps its name and month; only a flat one is carried into its year folder |
| `FilingPaths.PlacesAreSingle` | services/store/coppermind_store/filing.py:117-130 | unless the sources folder has brackets in its name, the link to every place a page is filed at has them at its ends only |
| `FilingPaths.FormerLinkHoldsNoFiledOne` | services/store/coppermind_store/projections.py:147-163 | a link to a page that was never filed, or filed flat, contains no link to a filed one, whatever the page's title is |
| `FilingPaths.FolderCanDefeatReplacing` | services/store/coppermind_store/filing.py:396-401 | in a sources folder named after one of its own filed pages a link to a page filed for the first time survives |
| `Filing.CoverageIsExact` | services/store/coppermind_store/filing.py:261-309 | over every sequence of plans the journal covers exactly the page paths of those the source was in without a break |
| `Filing.EverCoveredExactly` | services/store/coppermind_store/filing.py:261-309 | every page path a source ever had is covered if and only if each one planned before it was last out of the note has been planned again since |
| `Filing.ReturningSourceKeepsItsLinks` | services/store/coppermind_store/filing.py:261-309 | three plans, with the source, without it and with it again: its first page is no longer covered and every link to it stays in the body |
| `Filing.ResumedPlanKeepsTheOldPage` | services/store/coppermind_store/filing.py:261-288 | the plan that takes up an attempt interrupted after the manifest was written still covers links to the old page, and moves no page |
| `Filing.RewritingRelinks` | services/store/coppermind_store/filing.py:396-401 | the rewritten body links to no former page of any source, whatever the pages are called, but those whose link contains a new one |
| `Filing.NoFormerLinkLeft` | services/store/coppermind_store/filing.py:396-401 | so it has no link to any covered page that was never filed or filed flat, nor to any other covered page without brackets in its path, such as a place planned under another month, but for places of the plan itself |
| `Filing.FiledStretchesStay` | services/store/coppermind_store/filing.py:385-411 | where the links of a plan stand apart, a filed body is the body it came of, stretch by stretch in the same order, with the link to the new page of its item in the place of each covered link |
| `Filing.UnlinkedStays` | services/store/coppermind_store/filing.py:385-411 | a body that links to no page the plan covers stays as it is |
| `Filing.OwnPathsStandApart` | services/store/coppermind_store/filing.py:117-130 | the links of sources filed under their own names stand apart, whatever titles their pages had, unless the sources folder has brackets in its name |
| `Filing.CompletedIsUpToDate` | services/store/coppermind_store/filing.py:242-260 | a completed filing that nobody touched is found up to date, under whatever month |
| `Filing.NoteFiling.WritePage` | services/store/coppermind_store/filing.py:369-376 | a page is placed only where nothing is, or where its very bytes are |
| `Filing.NoteFiling.PlacePage` | services/store/coppermind_store/filing.py:327-376 | a page is placed, reviewed, exactly if it can be filed, and no other file changes |
| `Filing.NoteFiling.FilePage` | services/store/coppermind_store/filing.py:312-384 | a run of the machine of one page's filing: wherever it is interrupted, every manifest names a page of its own source; when it ends the page is at its place, and the old one gone if the entry moves it; undisturbed it is refused only where the page cannot be filed, and touches no other file |
| `Filing.NoteFiling.PlanItems` | services/store/coppermind_store/filing.py:261-288 | one entry for each source of the note, from its manifest and its entry before, and refused only for a source without manifest or with no proper id |
| `Filing.NoteFiling.ApprovedRevisions` | services/store/coppermind_store/filing.py:200-241 | filing goes on exactly when the review on record approved every source's current revision |
| `Filing.NoteFiling.Remember` | services/store/coppermind_store/filing.py:55-67 | a copy of the note is kept only if it is the version that was seen |
| `Filing.NoteFiling.CompletePlan` | services/store/coppermind_store/filing.py:385-442 | the journal is completed only with the note as it was seen after its plan was written, its body come of the one before by exchanging covered links, at the place planned; undisturbed it is refused only if the note is no longer as planned |
| `Filing.NoteFiling.CarryOut` | services/store/coppermind_store/filing.py:289-442 | a filing that completes made its plan from manifests and journal as they were, has every page settled and a copy of the note it moved, and removed only pages its own plan moves; undisturbed it is refused only where a plan that could be made cannot be carried out |
| `Filing.NoteFiling.JournalCovers` | services/store/coppermind_store/filing.py:261-309 | whenever a call ended or was interrupted, the journal covers exactly the page paths of the plans each source was in without a break |
| `Filing.NoteFiling.FileNote` | services/store/coppermind_store/filing.py:158-442 | interrupted anywhere, manifests name existing pages; completed, the note as this call saw it is in its folder, and is a version of this call with covered links exchanged for new ones and nothing else changed; only old pages the completed plan moves are gone; done before, nothing changes; undisturbed and approved it is refused only where it cannot be filed |
| `FilingPages.OldPageOutlivesRun` | services/store/coppermind_store/filing.py:261-384 | once the manifest names another place, no run of attempts, edits and revisions ever removes the page from its old one |
| `FilingPages.QuietRun` | services/store/coppermind_store/filing.py:312-384 | wherever attempts stop, either the manifest and the old page are as before and every copy is that page reviewed, or the manifest names one of the page's places |
| `FilingPages.NextAttemptClears` | services/store/coppermind_store/filing.py:312-384 | while the manifest names the old place, one attempt that is not stopped clears it |
| `FilingPages.OldPageStaysExactly` | services/store/coppermind_store/filing.py:312-384 | wherever attempts stopped before, the old page outlives everything that may follow if and only if the manifest no longer names it when the last of them stopped |
| `FilingPages.StoppedInBetween` | services/store/coppermind_store/filing.py:377-384 | an attempt that stops so, for every page |
| `ArtifactRecords.RecordedBytesStay` | services/store/coppermind_store/artifacts.py:644-914 | what a manifest once recorded under a number, the archive holds unchanged ever after |
| `ArtifactRecords.CurrentIsLast` | services/store/coppermind_store/artifacts.py:169-174 | the current revision is found, and is the last of those numbered from 1 |
| `ArtifactRecords.WithRevisionOk` | services/store/coppermind_store/artifacts.py:847-914 | an appended revision keeps the numbering and the archived bytes |
| `ArtifactRuns.UndoingLosesExactly` | services/store/coppermind_store/artifacts.py:799-841 | over every run of a creation, undoing it deletes bytes that were never archived if and only if, after the copy was placed, a device was the last to write and left other bytes there |
| `ArtifactRuns.AnEditedCopyIsDeleted` | services/store/coppermind_store/artifacts.py:836-841 | a run in which a device's edit is deleted, for every creation and every edit |
| `ArtifactRuns.RunOwn` | services/store/coppermind_store/artifacts.py:799-841 | over every run a creation touches archive and manifests under its own identity only, and undone it leaves them as they were |
| `ArtifactRuns.ShownUnarchivedExactly` | services/store/coppermind_store/artifacts.py:847-914 | over every run of a revision, bytes it showed in the vault are archived nowhere afterwards if and only if it broke before writing the manifest, cleaned up, and the archive had them under no other number or artifact |
| `ArtifactRuns.ARevisionLeavesBytesUnarchived` | services/store/coppermind_store/artifacts.py:847-914 | such a run for every artifact and all new bytes |
| `ArtifactRuns.TakingLosesExactly` | services/store/coppermind_store/artifacts.py:1386-1445 | over every run of putting a copy back, removing the file it was found in takes bytes that are not on record if and only if a device was the last to write it after it was read, and left such bytes there |
| `ArtifactRuns.AnEditedFileIsTaken` | services/store/coppermind_store/artifacts.py:1386-1445 | such a run for every copy and every edit |
| `Artifacts.ChangedByDevice` | services/store/coppermind_store/artifacts.py:644-1445 | what the store did not touch and is not what it was, a device was the last to change |
| `Artifacts.UnrecordedLossesAreOfTwoKinds` | services/store/coppermind_store/artifacts.py:644-1445 | over every history, what the store ever deleted or overwrote is on record, but for the copy of an undone creation, or what a device made of it, and what a device made of a file after it was read to be put back |
| `Artifacts.ArtifactStore.CreateNew` | services/store/coppermind_store/artifacts.py:753-844 | creation is a run of the machine of its steps; one that completes records exactly its revision 1, with its copy under the first free name; one that fails leaves archive and manifests as they were, and undisturbed it fails only if both names are taken |
| `Artifacts.ArtifactStore.BringBrowseCurrent` | services/store/coppermind_store/artifacts.py:917-959 | the copy is overwritten only while it is the archived bytes it showed; an edited one stays and the new one lands beside it |
| `Artifacts.ArtifactStore.AddRevision` | services/store/coppermind_store/artifacts.py:847-914 | a revision is a run of the machine of its steps; completed, the artifact has exactly this one revision more; interrupted anywhere, the manifest is the old one or that; a fault once the copy was placed ends with its archived bytes taken back |
| `Artifacts.ArtifactStore.Retire` | services/store/coppermind_store/artifacts.py:1233-1275 | removal is permanent, refused exactly if it was done before, and takes the copy exactly if it is the archived bytes |
| `Artifacts.ArtifactStore.RestoreMovedCopy` | services/store/coppermind_store/artifacts.py:1386-1445 | with devices at work all the while, only exactly the archived bytes are put back; `absent` is answered if and only if every file not older than the revision was read and was something else when the walk came to it; undisturbed one such file is moved and nothing else, if there is one and the place is free |
| `Artifacts.ArtifactStore.PutBack` | services/store/coppermind_store/artifacts.py:1386-1445 | putting back is a run of the machine of its steps: if nothing stops it once the copy is placed, the file is removed as it is then |
| `Artifacts.ArtifactStore.SweepGone` | services/store/coppermind_store/artifacts.py:1322-1358 | a sweep retires an artifact only with a recorded removal and with the bytes found nowhere else, and undisturbed is refused only where one of these is missing |
| `Artifacts.ArtifactStore.StoreRevision` | services/store/coppermind_store/artifacts.py:644-737 | what the request names or is known by gets exactly one revision more, the last, with these bytes or this link, and no other manifest changes; only where nothing is known is one artifact new; nothing is created if and only if the current bytes, or the link, are these already |
| `Artifacts.ArtifactStore.Serve` | services/store/coppermind_store/artifacts.py:644-1445 | over any number of requests, sweeps and device edits, what was on record under a number stays on record, the archive holds those very bytes, and everything that went from the vault is accounted for |
| `MaintenanceGate.StepKeeps` | services/store/coppermind_store/maintenance.py:10-53 | every entry, exit, wake-up and cancellation keeps the gate's invariant |
| `MaintenanceGate.GateIsSafe` | services/store/coppermind_store/maintenance.py:10-53 | over every run: an owner is alone, hold counts are open shared scopes, and `waiting` counts the blocked exclusive requests |
| `MaintenanceGate.OthersOnlyLeave` | services/store/coppermind_store/maintenance.py:21-27 | while an exclusive request waits, the set of other holders only shrinks |
| `MaintenanceGate.EmptyGateWakes` | services/store/coppermind_store/maintenance.py:38-53 | no wake-up is lost: once the gate is empty a waiting exclusive request is awake and would be granted |
| `MaintenanceGate.UpgradeNeverGranted` | services/store/coppermind_store/maintenance.py:38-47 | a task that asks for the gate to itself from inside waits until it is cancelled, and lets nobody new in |
| `MaintenanceGate.GrantedExactly` | services/store/coppermind_store/maintenance.py:17-53 | over every run a request is granted at once exactly if it is welcome: to an owner or a present holder always a further shared scope, to others while nobody owns or waits, and the gate to oneself while it is empty; a blocked one is granted at its turn exactly if it is welcome by then; none of this touches other tasks |
| `MaintenanceGate.ReentryIsImmediate` | services/store/coppermind_store/maintenance.py:17-28 | a task that is inside, however deep, is let further in at once, whoever waits outside |
| `MaintenanceGate.WelcomeIsAwake` | services/store/coppermind_store/maintenance.py:21-47 | a blocked request that is welcome is awake |
| `MaintenanceGate.Gate.EnterShared` | services/store/coppermind_store/maintenance.py:17-28 | one turn of the shared wait is the step of the specification |
| `MaintenanceGate.Gate.LeaveShared` | services/store/coppermind_store/maintenance.py:29-36 | leaving a shared scope gives back exactly one hold and tells everyone |
| `MaintenanceGate.Gate.EnterExclusive` | services/store/coppermind_store/maintenance.py:38-47 | one turn of the exclusive wait is the step of the specification, granted only with nobody inside |
| `MaintenanceGate.Gate.LeaveExclusive` | services/store/coppermind_store/maintenance.py:48-53 | leaving the exclusive scope frees the gate and tells everyone |
| `MaintenanceGate.Gate.Abandon` | services/store/coppermind_store/maintenance.py:40-47 | a cancelled request stops being counted |
| `Authenticator.StepKeeps` | services/api/coppermind_api/auth.py:64-128 | requests, verifications, reloads and the clock, interleaved at will, keep the invariant |
| `Authenticator.CacheIsCoherent` | services/api/coppermind_api/auth.py:64-91 | every cached principal is what verifying against the snapshot in force gives, with that snapshot's expiry, and at most one load runs |
| `Authenticator.GrantsAreCurrent` | services/api/coppermind_api/auth.py:93-128 | a principal is granted only as the snapshot then in force gives it, from the cache only before that snapshot expires |
| `Authenticator.AnswersAreJustified` | services/api/coppermind_api/auth.py:93-128 | every grant and every refusal is what one snapshot in force during the request gives, and one credential is verified at most once for each of them |
| `Authenticator.HistoryGrows` | services/api/coppermind_api/auth.py:80-91 | snapshots are only added, and the clock only goes on |
| `Authenticator.LateGrantsExactly` | services/api/coppermind_api/auth.py:93-128 | over every run a principal is granted at or after its snapshot's expiry if and only if its verification returned, and not before then |
| `Authenticator.SlowVerificationOutlivesItsSnapshot` | services/api/coppermind_api/auth.py:107-123 | with any scheme and record there is a run that grants a principal after its snapshot expired |
| `Authenticator.SnapshotsAreLoads` | services/api/coppermind_api/auth.py:64-91 | over every run each snapshot but the first, empty one is what one load brought, and expires exactly `ttl` after that load ended |
| `Authenticator.IndexedByLast` | services/api/coppermind_api/auth.py:80-91 | of records with one key id the last one counts |
| `Authenticator.LoadsAreNeeded` | services/api/coppermind_api/auth.py:64-78 | a load is started only when the snapshot in force has expired and none is under way |
| `Authenticator.CachedIsServed` | services/api/coppermind_api/auth.py:93-106 | a request for what is cached is answered at once, without a verification, while the snapshot stands |
| `Authenticator.KeptUntilReload` | services/api/coppermind_api/auth.py:107-128 | what was granted after a verification is cached from then on, until the next snapshot |
| `Authenticator.UnavailableExactly` | services/api/coppermind_api/auth.py:64-91 | a request is answered as unavailable exactly when the load it waited for broke |
| `Authenticator.ApiKeyAuthenticator.Authenticate` | services/api/coppermind_api/auth.py:93-106 | the cache is served only while its snapshot stands |
| `Authenticator.ApiKeyAuthenticator.Decided` | services/api/coppermind_api/auth.py:116-128 | a decision is kept only if no reload overtook the verification, and is retaken otherwise |
| `Authenticator.ApiKeyAuthenticator.ReadKeySet` | services/api/coppermind_api/auth.py:80-91 | a load that ends well replaces records, expiry and generation together and empties the cache |
| `Notices.LandsExactly` | coppermind/statefiles.py:106-120 | a write lands if and only if no other write landed since its file was read |
| `Notices.NoticesAreLinearizable` | services/store/coppermind_store/control.py:187-211 | over every interleaving the revision counts the successful changes, the stored notices are those changes one after another, and each writer's change is among them exactly once or not at all |
| `Notices.LastChangeWins` | services/store/coppermind_store/control.py:160-211 | over every run there stands under each id what the last successful change about it left, its notice or none, and what there was if none was about it |
| `Notices.GivingUpIsJustified` | services/store/coppermind_store/control.py:196-211 | a writer gives up only when five other changes succeeded meanwhile, and writes nothing exactly if it was to clear a notice that was not there |
| `Notices.ControlState.Read` | coppermind/statefiles.py:80-89 | a reader gets the revision and the well-formed notices of the file, and none of a file never written |
| `Notices.ControlState.WriteLocked` | coppermind/statefiles.py:106-120 | a conditional write replaces the file with the next revision or leaves it alone |
| `Notices.ControlState.ChangeNotices` | services/store/coppermind_store/control.py:187-211 | the retry loop, with anything the others do in between, ends with an outcome the specification justifies |
| `Lines.LinesJoin` | coppermind/frontmatter.py:155-161 | cutting a text into lines with their ends loses nothing |
| `Frontmatter.FindClosingDelimiter` | coppermind/frontmatter.py:155-161 | the loop over lines finds the first place where a delimiter line starts |
| `Frontmatter.AcceptedIsLossless` | coppermind/frontmatter.py:298-326 | an accepted text with frontmatter is its opening line, block, closing line and body, byte for byte |
| `Frontmatter.AcceptedExactly` | coppermind/frontmatter.py:298-326 | writers accept a text with frontmatter exactly if it is put together so |
| `Frontmatter.SplicedSame` | coppermind/frontmatter.py:385-435 | splicing in the block that is there changes nothing |
| `Frontmatter.SplitLosesNothingExactly` | coppermind/frontmatter.py:132-152 | a split loses no body text if and only if the closing line ends in a line feed or ends the text |
| `Frontmatter.SpliceReadsBackExactly` | coppermind/frontmatter.py:385-435 | a text with another block spliced in splits into that block and the same body if and only if no line of the block is a delimiter |
| `Frontmatter.AppendedReadsBack` | coppermind/frontmatter.py:329-359 | appended lines, in the endings of the text, are read back behind the old block, with the same body |
| `Frontmatter.EndingKeepsLines` | coppermind/frontmatter.py:357-357 | the other line ending brings in no delimiter line |
| `Frontmatter.ComposeReadsBackExactly` | coppermind/frontmatter.py:255-266 | a composed document splits back if and only if its block has no delimiter line, or its mapping is empty and its body does not open one |
| `Embeds.SpansAreMatched` | coppermind/embeds.py:17-37 | a code span runs from a backtick string to the next of equal length, and what opens none has no equal after it |
| `Embeds.CodeSpansSplit` | coppermind/embeds.py:17-37 | the loop over the runs cuts the text exactly at those spans |
| `Embeds.CodeSpansLoseNothing` | coppermind/embeds.py:17-37 | the pieces of a paragraph make up the paragraph |
| `Embeds.RunsAreMaximal` | coppermind/embeds.py:17-24 | the runs are the backtick strings of the text, each as long as it can be, and all of them |
| `Embeds.SpanIsCodeExactly` | coppermind/embeds.py:17-37 | a character of a paragraph is code exactly if it stands in a code span |
| `Embeds.ParagraphsApart` | coppermind/embeds.py:54-58 | paragraphs are cut apart before every blank line, and code spans are looked for in each by itself |
| `Embeds.OneParagraph` | coppermind/embeds.py:54-58 | prose without such a line is cut as one |
| `Embeds.StepKeepsNesting` | coppermind/embeds.py:75-94 | the content columns of open list items strictly increase, and no prose waits inside a fence |
| `Embeds.SegmentationIsLossless` | coppermind/embeds.py:40-102 | for every body the pieces make up the body |
| `Embeds.FenceHolds` | coppermind/embeds.py:62-73 | from an opening fence up to the line that closes it every line is code |
| `Embeds.FenceOpenExactly` | coppermind/embeds.py:62-73 | the scan is inside a fence exactly where a line before opened it and none since closed it |
| `Embeds.FlagsMean` | coppermind/embeds.py:62-102 | what the scan knows of the line before: whether it was blank outside a fence, and whether it was code |
| `Embeds.FenceIsRecognised` | coppermind/embeds.py:8-10 | an indented run of backticks or tildes is a fence with what follows it exactly from three marks on (section 4.5 of CommonMark 0.31) |
| `Embeds.IndentIsColumns` | coppermind/embeds.py:79-80 | the indentation of a line is the column its spaces and tabs lead to, with tab stops four apart (section 2.2 of CommonMark 0.31) |
| `Embeds.ContentColumn` | coppermind/embeds.py:79-92 | a list item's content stands as many columns behind its marker as there are spaces, if these are one to four, and one column behind it otherwise (section 5.2 of CommonMark 0.31) |
| `Embeds.IndentedLineIsCodeExactly` | coppermind/embeds.py:75-102 | a line that opens no fence is code exactly if it goes on with no paragraph and stands four columns past the margin and past the content of every open list item it is indented to (section 4.4 of CommonMark 0.31); those items stay open |
| `Embeds.ProseAndCode` | coppermind/embeds.py:40-102 | the loop over the lines gives the pieces of the specification, and ends |
| `Embeds.RewriteEmbeds` | coppermind/embeds.py:105-159 | the rewritten body is its pieces, prose rewritten and code as it was |
| `Embeds.CodeIsUntouched` | coppermind/embeds.py:156-159 | every code piece stays where and as it was |
| `Embeds.SubstitutedAtEmbeds` | coppermind/embeds.py:134-154 | a text cut at its embeds is rewritten at exactly these, each that resolves, and the stretches between them stay |
| `Embeds.PartsOf` | coppermind/embeds.py:134-154 | every text can be cut so |
| `Embeds.ProseIsRewrittenTwice` | coppermind/embeds.py:105-159 | prose is rewritten in two passes: the wiki embeds of the text, then the Markdown embeds of what that gives |
| `Embeds.UnresolvedIsIdentity` | coppermind/embeds.py:132-159 | whatever artifacts there are, a body whose prose embeds none of them stays as it is |
| `Embeds.EmbedIsRewritten` | coppermind/embeds.py:134-145 | an embed of a name that resolves comes to name the filed artifact and keeps the text it shows |
| `Embeds.RefilingRewritesOnceExactly` | coppermind/embeds.py:105-159 | rewriting the wiki embeds of a text a second time changes nothing, for any text, if and only if for every artifact three embeds of its filed path stay: alone, with nothing shown, and showing the embed it was filed for |
| `Embeds.NameableStaysExactly` | coppermind/embeds.py:113-145 | for a filed path that can stand in an embed they stay if and only if it names no artifact, or only what it is itself |
| `Embeds.BracketDefeatsRefiling` | coppermind/embeds.py:117-145 | for a filed path with a closing bracket that closes nothing they do not all stay |
| `Embeds.NoneStays` | coppermind/embeds.py:134-145 | where no embed starts, rewriting what follows makes none start |
| `Naming.LongestIsLongest` | coppermind/naming.py:57-69 | what is trimmed is the longest prefix that meets both budgets |
| `Naming.FittedFits` | coppermind/naming.py:57-69 | a fitted stem meets both budgets, and is the longest prefix that does, without white space at its beginning and without white space and full stops at its end |
| `Naming.Fit` | coppermind/naming.py:57-69 | the trimming loop computes the fitted stem |
| `Naming.CandidatesDiffer` | coppermind/naming.py:119-131 | distinct numbers give names that differ under case folding, whatever stands before them |
| `Naming.CandidateShows` | coppermind/naming.py:119-131 | a numbered name is the stem, fitted to what its number leaves of the budgets, and the number; a stem that fits stays whole |
| `Naming.Pigeonhole` | coppermind/naming.py:108-131 | if every number below n is taken, at least n - 2 names are |
| `Naming.UniqueStem` | coppermind/naming.py:108-131 | the search ends within one more try than there are names, with the first free number |
| `Naming.CandidateFitsExactly` | coppermind/naming.py:119-131 | a numbered name meets both budgets if and only if its number has at most 117 digits |
| `Naming.FreeNamesFit` | coppermind/naming.py:108-131 | in every folder of fewer than 10^117 - 2 names the numbered names fit |
| `Naming.DatedStem` | coppermind/naming.py:86-105 | a dated name is the whole date and the stem fitted to the rest of the budgets, or a word for it where nothing is left of the stem |
| `NoteHistory.BlobBatch` | services/store/coppermind_store/note_history.py:157-168 | reading the framed stream gives back every object's own bytes |
| `NoteHistory.Blobs` | services/store/coppermind_store/note_history.py:129-155 | every name is read once and in order, in batches of at most 8 MiB or a single blob, and reading fails if and only if a name is no blob or a blob is too large |
| `NoteHistory.Group` | services/store/coppermind_store/note_history.py:233-236 | the blobs come in the order of their newest deletion, each with all its deletions |
| `NoteHistory.CarrierIsNewest` | services/store/coppermind_store/note_history.py:237-255 | the first blob of the order that carries a note was deleted by the newest deletion of any that does |
| `NoteHistory.SearchIsComplete` | services/store/coppermind_store/note_history.py:237-256 | a search that stopped early has found what a whole one would |
| `NoteHistory.Load` | services/store/coppermind_store/note_history.py:193-256 | for each wanted note not live, and for no other, the record is its newest removal; loading fails only over an unreadable object |
| `NoteHistory.EvidenceIsNewestExactly` | services/store/coppermind_store/note_history.py:307-324 | there is evidence of a path and content if and only if the newest deletion of the note has them; an older one never counts |
| `NoteHistory.SecondCopyOverlooked` | services/store/coppermind_store/note_history.py:246-250 | of two contents of one note deleted by one commit only the first is evidence |
| `NoteHistory.GitHistory.Refresh` | services/store/coppermind_store/note_history.py:170-191 | after a look at Git the record is right for the HEAD it was read at and for the notes asked for, or empty; a record that covers them is kept, and it is empty only without Git or over an unreadable object |
| `NoteHistory.GitHistory.FindEvidence` | services/store/coppermind_store/note_history.py:307-324 | the loop finds evidence exactly when there is some |

## Left out

- Parsing of iCalendar, YAML and Git output, Argon2, SQL and full-text search: a parsed export, a dumped mapping, a history and the check of a secret are parameters.
- HTTP routes, settings, permissions of files, model providers, text extraction, logging and field checks of requests.
- The one-time upgrades of the calendar archive and of attachments, and the migration and purge of dossiers, which can clear a redirect.
- Rendering and observing dossier pages, the preview tokens of merge and split, and the receipts they write.
- Faults inside one file write, and device edits between a check and the rename that follows it at once.
- ASCII stands for Unicode where letters are put in lower case and digits recognised; `Naming` takes case folding as a parameter.
- `sanitize_stem` and `sanitize_folder`: normalisation and reserved names are not modelled, only the trimming that follows.
- Publication of a filed note to the mirror, legacy meeting times, embeds and artifact citations of a filing, and the notice about a note moved by hand.
- The order in which sources are filed and links are replaced: the model takes any order.
- `DossierService.EntityService.Contribute`: the paths of dossiers are taken to be distinct, as their file names are made from their ids.
- `DossierUndo.SplitPassMergeBack`: no device corrects a dossier page between the split and the merge, and the aliases the merge collects are not those from before.
- `NoteLinks.RewrittenLinks`: nothing is said for a sources folder with `[[` or `]]` in its name, for which `FilingPaths.FolderCanDefeatReplacing` shows that it can fail.
- `Filing.FiledStretchesStay`: where links do not stand apart a replacement can meet what an earlier one wrote; then only `Filing.CameOf` is said, link by link and in some order.
- `Filing.NoteFiling.FileNote`: what is said of a disturbed call that is refused is only what every call keeps; it may give up for anything others did.
- `Filing.NoteFiling.FilePage`: a device is taken not to delete a source page or to change which source it names, because no program could then keep a manifest naming it.
- `Authenticator.AnswersAreJustified`: the records a load returned are read together with their generation, although another load could in principle end in between.
- `Embeds.RewriteEmbeds`: where a Markdown embed is recognised, which names resolve and how a destination is quoted are parameters.
- `Embeds.RefilingRewritesOnceExactly`: about the wiki notation in one stretch of prose; a filed path with backticks could change what is prose.
- `Artifacts.ArtifactStore.RestoreMovedCopy`: which files the walk comes to, and which of them are older than the revision, are parameters.
- `Artifacts.ArtifactStore.StoreRevision`: which artifact the mirror calls a replay is a parameter; the mirror may name a removed one, and its removal still stands.
- `NoteHistory.Load`: a failure to read is reported as such even when the early stop would have come first in a later batch.
- `Notices.ControlState.ChangeNotices`: a state file that is no mapping, or is deleted by hand, raises in the program and is not modelled.
