# Verified models of the EHF fellowship application

This project models the state-keeping code of the fellowship application in Dafny and proves what that code guarantees
over whole runs. It is organised as one group of modules per component:

- **Applicant submission workflow** — `Drafts`, `CorrectionLog`, `Confirmations`, `Documents`, `SlotRules`,
  `DocumentHistory`, `Finalize`, `Workflow`, `Submission`, `SubmissionRules`, `Resubmission`, `Reaching`. Versioned drafts with a lock and a set of reopened
  sections, confirmations by content hash, document slots with append-only versions, and final confirmations bound to a
  manifest of all of these. Each store is a class whose methods are proved equal to a step function on its view;
  `Workflow` puts the step functions together into one transition system over ten actions, for any number of
  applications, and the theorems speak of every run of it.
- **Encrypted object store under upload** — `ObjectTypes`, `ObjectStore`, `Upload`. Disk, duplicate index and version
  registry, with a failure possible at every call into the operating system and any number of uploads in flight.
- **PDF graphs** — `PdfGraph`, `PdfPackage`, `PdfValidation`. A table of dictionaries, arrays, indirect references and
  leaves with real cycles; a depth-first search that edits the graph it walks, and a reachability decision.
- **Bounded machinery** — `RateLimit`, `PublicationLookup`, `PublicationRuns`, `ApplicantAuth`, `Readiness`.
- **Deployment with rollback** — `Installer`, over an abstract file system with symbolic links in which any step may fail.
- **Publications** — `Extraction` and `Candidates` (citation segmentation, for any line classifiers), `Manifest` (the search for a matching
  work), `Deduplication` (the repairs), `Reconciliation`, `Conservation`, `Uptake`, `Decisions`, `NextRun`, `ManifestRun` (additive reconciliation).
- **Arithmetic and formats** — `Orcid`, `LegacyUpgrade`.

`dafny verify dfyconfig.toml` checks everything.

## Where the code does other than one would expect

Each of these is stated by the member named with it; the models follow the code.

- `reopen_document_slot` supersedes the final confirmation before it finds the slot unavailable
  (`Resubmission.ReopenSlotHalfDoneIff`), and that half-step is reachable
  (`Reaching.SubmissionAndHalfDoneStepAreReachable`). `reopen_section` is all-or-nothing.
- An older version that is still pending can be accepted after a submission, and the next submission then appends a
  confirmation without superseding the first (`Reaching.TwoActiveConfirmationsAreReachable`,
  `Resubmission.SubmitAppendsBesideActiveIff`). The invariants therefore speak of the newest confirmation.
- `_canonical_hash` takes a row version and ignores it, as the docstring of `is_current` intends: an autosave keeps a
  section confirmed exactly if it leaves the values as they were (`Confirmations.AutosaveKeepsConfirmationIffUnchanged`).
- `_has_disallowed_content` reads the action of a dictionary with `get`, which returns an indirect object unresolved. If
  the PDF library's `str` does not spell such a reference like the action behind it, the document is admitted
  (`PdfValidation.IndirectActionIsOverlooked`).
- The walk and the cleaner of packages resolve a reference once. If `get_object` returns a reference again, both take it for
  a leaf: what stands beyond it is neither found nor cleaned (`PdfValidation.ScriptBeyondChainIsOverlooked`,
  `PdfPackage.ScriptBeyondChainStays`). `PdfValidation.Admit` and `PdfPackage.CleanedDocumentIsSafeIff` say exactly which
  documents are judged or cleaned wrongly. What `str` makes of a reference and what one call of `get_object` returns are
  parameters of the model, as the library is not part of it.
- The walk does not mark arrays, so a document with a cycle of arrays without a dictionary on it exhausts the stack
  and is refused, though nothing in it is forbidden (`PdfValidation.HarmlessArrayCycleIsRefused`).
- `_valid_orcid` matches `\d`, which admits decimal digits of every script: replacing a digit by the same digit of another
  script is accepted (`Orcid.OtherScriptIsAccepted`). With ASCII digits all single changes and all swaps of unlike
  neighbours are rejected.
- `_dual_format` forgets the degree category of BSc and MA legacy records (`LegacyUpgrade.BachelorIsForgotten`).
- `_deduplicate_exact_title_works` ranks a missing disposition below NON_PUBLICATION. Of two or more copies that were never
  reviewed one is kept by the first pass and set aside by the second, so that none is left
  (`Deduplication.StandsAfterTwoPassesIff`, `Deduplication.UnreviewedCopiesAreLost`).
- A citation whose own work the search cannot find, such as one of several works of one short title without a year, is taken
  up as a new work once more when an equal citation follows in the same run, under the identifier of the first, although
  its occurrence is recorded only once (`Uptake.TakenUpAgainIff`, `Uptake.ShortTitleIsTakenUpTwice`,
  `Conservation.RecordedOnce`).
- The next run begins with the repairs, after which a long title is that of one work at most. A citation whose long title
  has another year than the copy that is kept is then taken up again (`NextRun.OtherYearIsTakenUpAgain`), although within
  the run it would have been found; `NextRun.TakenUpByNextRunIff` says exactly when, and `NextRun.DatelessLongTitleIsFound`
  that a long title without a year is found.
- `_restore` puts back a managed path that was a symbolic link as a link, but not the file behind it, into which
  `_install_configuration` has copied (`Installer.LinkedUnitIsNotRestored`); and it leaves the boot setting as
  `systemctl enable` made it (`Installer.Host.Restore`).

## Model

| member | source | states |
|---|---|---|
| Drafts.InMemoryDraftRepository.Save | app/applicant/drafts.py:57-83 | a save is refused for a foreign source, a locked section or a version that is not the present one, in this order; otherwise the new store is the merged snapshot one version on, and the log gains one correction per field that changed, in order |
| Drafts.InMemoryDraftRepository.Load | app/applicant/drafts.py:54-55 | the stored snapshot or none |
| Drafts.InMemoryDraftRepository.Lock | app/applicant/drafts.py:85-87 | the application is locked and all its reopenings are withdrawn |
| Drafts.InMemoryDraftRepository.Reopen | app/applicant/drafts.py:89-92 | only a locked application gains a reopened section; otherwise nothing changes |
| CorrectionLog.CorrectionLogIsComplete | app/applicant/drafts.py:57-83 | after any run, replaying the log of an application and section from the empty draft gives its current values, and every entry's `before` is the replayed value at that point and differs from `after` |
| CorrectionLog.RowVersionCountsSaves | app/applicant/drafts.py:69-80 | the row version is the number of successful saves, and a draft exists exactly if there was one |
| CorrectionLog.FieldsHoldWhatWasWritten | app/applicant/drafts.py:57-83 | after any run each field has the value last written into it by an accepted save, or none |
| CorrectionLog.SaveAcceptedIff | app/applicant/drafts.py:57-92 | after any run a save is refused for an unknown source, else because the application was locked and the section not reopened since, else because the version given is not the number of saves so far, and otherwise accepted |
| CorrectionLog.StaleSaveChangesNothing | app/applicant/drafts.py:69-72 | of two saves prepared from one version the second is refused and changes nothing, whatever runs in between |
| Confirmations.SectionConfirmationService.Confirm | app/applicant/confirmations.py:27-39 | the confirmation of the snapshot's content is stored, or nothing changes if the snapshot belongs elsewhere |
| Confirmations.SectionConfirmationService.CheckCurrent | app/applicant/confirmations.py:41-53 | a section is confirmed exactly if the stored hash is that of the snapshot's values |
| Confirmations.SectionConfirmationService.Invalidate | app/applicant/confirmations.py:60-61 | the confirmation is gone and no other is touched |
| Confirmations.AutosaveKeepsConfirmationIffUnchanged | app/applicant/confirmations.py:41-72 | an accepted save raises the row version, and a confirmed section stays confirmed exactly if the save left its values as they were; as the saved names differ, exactly if no correction was logged |
| Documents.DocumentSlotRepository.AddSlot | app/applicant/documents.py:118-147 | confidential or recommendation slots visible to applicants and nameless slots are refused; otherwise one empty closed slot is added |
| Documents.DocumentSlotRepository.OpenSlot | app/applicant/documents.py:182-197 | an available slot of the application is opened one row version on, and every refusal changes nothing |
| Documents.DocumentSlotRepository.RequireUpload | app/applicant/documents.py:199-214 | an upload may begin exactly on an open, visible slot of the application at the expected row version |
| Documents.DocumentSlotRepository.RegisterPending | app/applicant/documents.py:216-249 | the check is repeated at registration; then one pending version with the next number is appended and the slot closed one row version on |
| Documents.DocumentSlotRepository.Accept | app/applicant/documents.py:301-315 | a pending version that is no recommendation becomes accepted, visible and active, one row version on |
| Documents.DocumentSlotRepository.Reject | app/applicant/documents.py:317-325 | a pending version becomes rejected; the slot is unchanged |
| Documents.DocumentSlotRepository.Restore | app/applicant/documents.py:327-337 | an accepted version of that very slot becomes active again, one row version on |
| Documents.RegisterKeepsValid | app/applicant/documents.py:216-249 | registration keeps versions numbered 1..n in their slot, pointers to accepted versions of the same slot, and ownership of versions |
| Documents.AcceptKeepsValid | app/applicant/documents.py:301-315 | acceptance keeps these invariants |
| Documents.RestoreKeepsValid | app/applicant/documents.py:327-337 | so does restoring an earlier version |
| Documents.DecisionKeepsKeys | app/applicant/documents.py:301-337 | decisions neither add nor remove slots or versions |
| Documents.DecisionChangesOneSlot | app/applicant/documents.py:301-337 | a decision leaves every slot but the one decided about as it was |
| SlotRules.DecisionSucceedsIff | app/applicant/documents.py:182-337 | which decisions are refused as incomplete, which because slot or version are not there or not in the state for it, and which succeed; a slot is opened only if it is visible, reviewed, and neither by type, link nor name a recommendation |
| SlotRules.DecisionEffect | app/applicant/documents.py:182-337 | a slot is opened in the mode given; an accepted version becomes visible and the active one of its slot, whatever was active before; a restored version becomes the active one; a rejected version carries its reason; all else stays |
| SlotRules.AddEffect | app/applicant/documents.py:118-147 | which slots are refused, and the closed empty slot added otherwise |
| SlotRules.RegistrationEffect | app/applicant/documents.py:216-249 | an upload into an open slot at the row version it began with adds one pending version with the next number, the file, the binding and the name given, and closes the slot; any other changes nothing |
| SlotRules.TicketIs | app/applicant/documents.py:366-372 | a replacement keeps the document identifier of its slot, a first upload draws a new one, and version and object have identifiers of their own |
| DocumentHistory.HistoryOnlyGrows | app/applicant/documents.py:216-337 | over any run versions stay with all their content fields, a status leaves PENDING at most once, version lists only grow, and a slot that changed has a higher row version |
| DocumentHistory.SlotsAreConsistent | app/applicant/documents.py:216-337 | in every reachable state a slot's versions are numbered 1..n, and the active pointer names an accepted, applicant-visible version of that same slot |
| DocumentHistory.SlotsTellTheirStory | app/applicant/documents.py:118-337 | in every reachable state the active version of a slot is that of its last successful acceptance or restoration, its mode that of its last opening unless an upload registered since, and its row version counts its changes |
| DocumentHistory.AtMostOneUploadRegisters | app/applicant/documents.py:226-249 | of two uploads that registered for one slot, the later one began at a higher row version: from one row version at most one registers |
| Finalize.FinalizationService.CollectSections | app/applicant/finalize.py:187-212 | the manifest's section entries and the unresolved sections, one or the other for each of the five |
| Finalize.FinalizationService.CollectDocuments | app/applicant/finalize.py:214-236 | an entry for each settled slot that holds a version, an unresolved item for each slot that is open, undecided or required and empty |
| Finalize.FinalizationService.FindActive | app/applicant/finalize.py:177-185 | the last confirmation of the application that is not superseded |
| Finalize.FinalizationService.Submit | app/applicant/finalize.py:87-110 | blocked with exactly the unresolved items, or the active confirmation if its manifest hash is today's, or a new confirmation, lock and audit event |
| Finalize.FinalizationService.SupersedeActive | app/applicant/finalize.py:166-175 | only the active confirmation of the application is marked superseded; without one nothing changes |
| Finalize.FinalizationService.ReopenSection | app/applicant/finalize.py:112-136 | the refusals in their order, else confirmation superseded, section confirmation withdrawn, section reopened and audited |
| Finalize.FinalizationService.ReopenDocumentSlot | app/applicant/finalize.py:138-164 | the same for a slot, with the confirmation superseded before the slot is looked at |
| Submission.StepKeepsInv | app/applicant/finalize.py:87-164 | each of the ten actions keeps the joint invariant of the four stores and moves drafts and documents only forward |
| Submission.Reachable | app/applicant/finalize.py:60-252 | the invariant holds after every run |
| Submission.DisplacedIsOutdated | app/applicant/finalize.py:91-98 | a confirmation that a new submission displaces without superseding it has a manifest that some draft or slot has moved past |
| SubmissionRules.SubmitsIff | app/applicant/finalize.py:87-110 | a submission succeeds exactly if each of the five sections has a draft and a confirmation of exactly its values, and every visible slot is closed, its last version, if any, is accepted, and something is active if it is required |
| SubmissionRules.BlockedNamesWhatIsMissing | app/applicant/finalize.py:187-236 | a refused submission changes nothing and names exactly the sections and the codes of the slots that stand in its way |
| SubmissionRules.SubmissionConfirmsNow | app/applicant/finalize.py:87-110 | the confirmation returned stands and has the row versions and hashes of the five drafts and one entry for each visible slot with an active version, in order; a new one is appended, the application locked with nothing reopened, and the event audited |
| SubmissionRules.RequiredDocumentsAreConfirmed | app/applicant/finalize.py:214-236 | every required visible slot has an entry in the manifest confirmed |
| SubmissionRules.ReopenSectionIff | app/applicant/finalize.py:112-136 | in every state that satisfies the invariant a section is reopened exactly on an administrator's complete request for one of the five sections while a confirmation stands; then its confirmation is withdrawn, it may be saved, the last standing confirmation is superseded, and all else stays |
| SubmissionRules.ReopenSlotIff | app/applicant/finalize.py:138-164 | the same for a visible slot of the application, which is then open for a replacement one row version on |
| SubmissionRules.ConfirmationsAreThoseMade | app/applicant/confirmations.py:27-61 | in every reachable state the stored confirmations are of the values that were confirmed last and not withdrawn since |
| Resubmission.UnsupersededMeansLocked | app/applicant/finalize.py:87-110 | in every reachable state an application with a confirmation that is not superseded is locked |
| Resubmission.NewestConfirmationIsFrozen | app/applicant/finalize.py:87-136 | while the newest confirmation is not superseded no section is reopened, the five drafts have exactly the row versions and hashes it records, and no save is accepted |
| Resubmission.ReopenSectionIsAllOrNothing | app/applicant/finalize.py:112-136 | in every reachable state a failing reopening of a section changes nothing |
| Resubmission.ReopenSlotHalfDoneIff | app/applicant/finalize.py:146-153 | a failing reopening of a slot has nevertheless changed the state exactly if the request was authorised and complete, a confirmation was active, and the slot is absent, another application's or hidden |
| Resubmission.FailedReopeningOnlySupersedes | app/applicant/finalize.py:146-153 | from any state and for any arguments, a reopening of a slot that fails marks at most confirmations superseded and touches nothing else |
| Resubmission.SubmitAppendsBesideActiveIff | app/applicant/finalize.py:91-98 | a submission puts a new confirmation beside one still active exactly if the application is ready, has an active confirmation, and its manifest differs from the recorded one |
| Resubmission.StandingUntilEffective | app/applicant/finalize.py:87-164 | a confirmation stays active and level through any actions without effect on the application, and after the first effective one it is superseded or outdated for good |
| Resubmission.SecondSubmissionIsIdempotentIff | app/applicant/finalize.py:87-110 | two successive successful submissions return the same confirmation exactly if in between no save was accepted, no slot changed and nothing was superseded; the second one then changes no state |
| Reaching.SubmissionAndHalfDoneStepAreReachable | app/applicant/finalize.py:87-164 | a run exists that submits, and from it the half-done reopening happens |
| Reaching.TwoActiveConfirmationsAreReachable | app/applicant/finalize.py:91-98 | a run exists (two uploads, the second accepted, submission, the first accepted, submission) after which one application has two confirmations that nothing superseded |
| ObjectStore.EncryptedObjectStore.EncryptAndPromote | app/documents/store.py:175-204 | an envelope appears under its key with the record that opens it; after a failed write, rename or flush neither the temporary nor the final file is left |
| ObjectStore.EncryptedObjectStore.StoreBytes | app/documents/store.py:94-116 | empty and duplicate documents are refused untouched; when registration fails the file is removed again; on success file, index entry and registered version appear together |
| ObjectStore.EncryptedObjectStore.IngestFile | app/documents/store.py:118-141 | whatever the outcome no quarantine file is left, and each refusal keeps its own meaning |
| ObjectStore.EncryptedObjectStore.DecryptBytes | app/documents/store.py:143-166 | decryption as specified by the checks on file, header, key, binding, size and hash |
| ObjectStore.TamperingIsDetected | app/documents/store.py:143-166 | whatever file is found, it opens exactly if it is the one that was written and under the binding it was written for, and then to the bytes stored |
| Upload.ApplicantDocumentService.Upload | app/applicant/documents.py:357-410 | the exact condition of success; each refusal changes nothing and is reported as an unavailable slot, an unavailable scanner, a document already submitted, or a rejected upload; success returns the version that was registered |
| Upload.StepKeepsInv | app/applicant/documents.py:357-410 | every step of any number of overlapping uploads keeps disk, index and registry in agreement |
| Upload.DiskIndexAndRegistryAgree | app/documents/store.py:94-204 | after any run the object files are exactly those named by registered versions, the index is exactly their application and hash pairs, and no application has two versions with equal plaintext |
| Upload.UploadedBytesComeBack | app/documents/store.py:143-204 | the version of a successful upload decrypts to the uploaded bytes, however the run goes on |
| Upload.FinishSucceedsIff | app/documents/store.py:94-141 | an upload in flight is stored exactly if it is clean and not empty, the disk works, the document is new to the application, and its slot is still open at the row version it began with |
| PdfPackage.Cleaner.RemoveUnsafe | app/documents/package.py:33-53 | the recursive search terminates on every graph, and marks exactly what is newly reached, each reference resolved once, without following `/Parent` or passing what was marked before, unsafe entries removed there |
| PdfPackage.CleanPage | app/documents/package.py:66 | started with nothing seen, the graph becomes the original without the unsafe entries of the dictionaries reached, and is otherwise unchanged |
| PdfPackage.CleanPages | app/documents/package.py:65-67 | page after page, it loses the unsafe entries of the dictionaries reached from any page |
| PdfPackage.CleanedGraphIsSafe | app/documents/package.py:33-53 | in the cleaned graph no dictionary reachable without following `/Parent` has an unsafe key, each reference resolved once |
| PdfPackage.CleaningTakesOnlyUnsafeEntries | app/documents/package.py:16-53 | an entry is gone exactly if its key is one of the ten and its dictionary was reached; every other entry is as it was |
| PdfPackage.CleanedDocumentIsSafeIff | app/documents/package.py:33-53 | with references followed to their end, it has no unsafe key anywhere exactly if no reference to a reference that the search meets leads to a dictionary with unsafe keys which the search does not come to |
| PdfPackage.ScriptBeyondChainStays | app/documents/package.py:40-41 | a page whose resources are a reference to a reference to a dictionary with a script, which cleaning leaves there |
| PdfPackage.CleaningComposes | app/documents/package.py:65-67 | cleaning from one page does not change what is reached from another |
| PdfPackage.CleaningIsIdempotent | app/documents/package.py:33-53 | cleaning twice is cleaning once |
| PdfValidation.Walker.WalkDict | app/documents/validation.py:81-92 | a verdict of the recursive walk is true only for a forbidden reachable dictionary; a negative one has checked everything newly visited; with stack enough for the graph it ends in a verdict unless arrays form a cycle |
| PdfValidation.Admit | app/documents/validation.py:66-95 | what is admitted reaches no dictionary the check refuses, each reference resolved once, and no cycle of arrays alone; with enough stack all other documents are admitted. With enough stack, and if no reference is spelled like an action it does not denote, the answer is right about forbidden keys and actions in the document with all references followed, and about array cycles, exactly unless all that is forbidden there is actions behind references not spelled like them, and dictionaries beyond references to references |
| PdfValidation.ForbiddenMeans | app/documents/validation.py:86-91 | the four keys and seven actions that are forbidden |
| PdfValidation.ForbiddenIffFound | app/documents/validation.py:79-91 | with all references followed, a document reaches something forbidden exactly if the check refuses a dictionary that the walk may come to, or such a dictionary without a forbidden key has a forbidden action behind a reference not spelled like it, or a reference to a reference that the walk meets leads to something forbidden |
| PdfValidation.IndirectActionIsOverlooked | app/documents/validation.py:89 | a document with the one action `/Launch` as an indirect object: forbidden, and found exactly if `str` spells the reference like an action |
| PdfValidation.ScriptBeyondChainIsOverlooked | app/documents/validation.py:79-80 | a document whose open action is a reference to a reference to a dictionary with a script: forbidden, and nothing for the check to find |
| PdfValidation.HarmlessArrayCycleIsRefused | app/documents/validation.py:93-94 | a document that reaches nothing forbidden but an array inside itself |
| PdfValidation.EverythingChecked | app/documents/validation.py:75-95 | a set of visited dictionaries closed under the walk contains every reachable one |
| Installer.Host.SnapshotPath | infra/install-ehf.py:211-225 | a snapshot of a link, file or absence, refused for directories |
| Installer.Host.RestorePath | infra/install-ehf.py:228-246 | unless the temporary name is a link, a completed restoration puts exactly the snapshot at the path, overwriting what an interrupted one left, and leaves everything else and no temporary file behind |
| Installer.Host.InstallConfiguration | infra/install-ehf.py:464-480 | where sources and targets are regular it succeeds exactly if no call fails, and touches only the managed paths; whichever call fails, between copy, chown and chmod too, on a sane host `current`, the releases and all links outside the managed paths stay; on success both files have the release's content, root's ownership and mode 0644, and the site is linked |
| Installer.Host.SwitchCurrent | infra/install-ehf.py:374-401 | it succeeds exactly if the release is marked, `current` is absent or a link to a marked release, the staging name is free and no call fails; then `current` links to the release and the previous one is returned; otherwise nothing has changed |
| Installer.Host.RestoreConfiguration | infra/install-ehf.py:257-259 | all three managed paths are as in the snapshot, and elsewhere at most leftover temporary files are gone |
| Installer.Host.Restore | infra/install-ehf.py:620-639 | from any state that a failed activation can leave, completed restoration gives the former release, paths and service state, and on a prepared host it completes if none of its calls fails; the boot setting stays as it is |
| Installer.Host.Activate | infra/install-ehf.py:651-667 | what lies between snapshot and restoration: on a prepared host it succeeds exactly if no call fails, and leaves a state that can be restored in any case |
| Installer.Host.Deploy | infra/install-ehf.py:642-667 | refused exactly if a managed path cannot be snapshotted; on a prepared host done exactly if no call fails, and otherwise, if the restoration's calls succeed, failed and restored; whichever step fails, if restoration completes then the release `current` resolves to, the three managed paths and the service are as before; when done `current` links to the release with its own marker, its configuration is installed, the service runs and is enabled |
| Installer.Host.Rollback | infra/install-ehf.py:670-694 | the same for a rollback, which is refused also if the release is not marked and leaves the boot setting alone |
| Installer.PutRestores | infra/install-ehf.py:211-246 | restoring a snapshot gives back link target, or bytes, mode and owner, or absence, whatever is there now |
| Installer.SwitchIsRestorable | infra/install-ehf.py:374-401 | what configuration and switch leave on a sane host can be restored |
| Installer.NewHostIsPrepared | infra/install-ehf.py:642-667 | a host with nothing but an unpacked, marked release is one on which it can be deployed |
| Installer.ReleaseIsBack | infra/install-ehf.py:627-632 | the former release is current again, also when there was none |
| Installer.FileBehindLinkIsNotRestored | infra/install-ehf.py:228-234 | restoring a path undoes a write through it exactly if the path was no link, or the write changed nothing |
| Installer.LinkedUnitIsNotRestored | infra/install-ehf.py:228-234 | a sane host whose unit file is a link: the file behind it is not restored |
| RateLimit.InMemoryRateLimiter.Allow | app/auth/rate_limit.py:30-45 | the answer and the new buckets, pruned from ten thousand on |
| RateLimit.PruningIsInvisible | app/auth/rate_limit.py:31-36 | for nondecreasing times every answer is that of a limiter that never prunes |
| RateLimit.AtMostTheLimitPerWindow | app/auth/rate_limit.py:39-45 | in every fixed window of a key at most `limit` requests are allowed |
| RateLimit.AtMostTwiceTheLimit | app/auth/rate_limit.py:30-45 | in every half-open interval of the window's length at most twice `limit` are allowed |
| RateLimit.AnswerIff | app/auth/rate_limit.py:30-45 | a request is allowed exactly if it begins a window of its key, or fewer than `limit` have been allowed in the window it falls into, both read off the times of the requests |
| PublicationLookup.CopyMetadata | app/applicant/publications.py:242-243 | a copy that says the same and shares no object with the original |
| PublicationLookup.CrossrefPublicationLookup.Check | app/applicant/publications.py:118-122 | a hit returns a copy of the right answer and makes the key the newest; this section alone keeps the cache valid, so any other may run between it and the insertion |
| PublicationLookup.CrossrefPublicationLookup.Insert | app/applicant/publications.py:139-143 | the key becomes the newest and the oldest are evicted down to the cache size, from any valid cache |
| PublicationLookup.CrossrefPublicationLookup.Lookup | app/applicant/publications.py:116-144 | the answer is that of a lookup without cache, in objects the cache does not share |
| PublicationLookup.EditAnswer | app/applicant/publications.py:116-144 | after a caller has overwritten an answer the next lookup still gives the uncached one |
| PublicationLookup.KeysAreTheMostRecent | app/applicant/publications.py:139-143 | after any sequence of lookups the keys, oldest first, are the last `cache_size` distinct identifiers by last use |
| PublicationLookup.RecencyIsByLastUse | app/applicant/publications.py:121-143 | the order of recency is that of last uses, counted on the history alone |
| PublicationRuns.LookupAll | app/applicant/publications.py:116-144 | lookups one after another: each answer is the uncached one, and the keys at the end are the newest `cache_size` of those that resolved |
| PublicationRuns.Threads.Act | app/applicant/publications.py:116-144 | one step of one thread (check, fetch, insert, or an edit of an answer held) moves the cache as the schedule without objects does; answers not yet stored, cached and given away never share an object |
| PublicationRuns.ScheduleIsRecorded | app/applicant/publications.py:116-144 | in every schedule each answer is the uncached one and the keys are the newest by their last locked section |
| PublicationRuns.Interleave | app/applicant/publications.py:116-144 | any number of threads in any interleaving: the cache never exceeds its size after any step, exactly the lookups that the schedule completes are answered, each as without cache, and the keys are the most recent ones |
| ApplicantAuth.ApplicantAuthService.Establish | app/auth/applicant.py:267-282 | a fresh context, with an invitation only for an active one |
| ApplicantAuth.ApplicantAuthService.RequestCode | app/auth/applicant.py:284-309 | a code is issued only to a live context with an active invitation, and displaces the former one |
| ApplicantAuth.ApplicantAuthService.VerifyCode | app/auth/applicant.py:311-362 | a session for the matching code, stored for the application of the invitation behind the context with both expiries; one attempt counted for another code; context and challenge consumed together |
| ApplicantAuth.ApplicantAuthService.Authenticate | app/auth/applicant.py:389-411 | a live session is extended, never beyond its absolute end |
| ApplicantAuth.AuthenticatesIffStillValid | app/auth/applicant.py:214-223 | a session is live exactly within 24 hours of its creation and within 30 minutes of its creation or last successful authentication, read off the history |
| ApplicantAuth.AtMostOneSession | app/auth/applicant.py:311-341 | each context yields at most one session |
| ApplicantAuth.SessionIsForItsApplication | app/auth/applicant.py:341-362 | in every run each session belongs to the application of the invitation under whose token its context was established |
| ApplicantAuth.IssuesIff | app/auth/applicant.py:284-309 | a code is sent exactly for an unused context at most 20 minutes old whose invitation is still valid |
| ApplicantAuth.CodesGoToTheInvited | app/auth/applicant.py:284-309 | in every run the codes sent, and the addresses they went to, are those of the invitations with which their contexts were established |
| ApplicantAuth.VerifiesIff | app/auth/applicant.py:311-341 | a code opens a session exactly if it is the last one issued to an unused context at most 20 minutes old, at most 10 minutes old itself, with fewer than five other codes tried on it, and the invitation of the context is still valid, all read off the history |
| Readiness.PermitsAreConserved | app/main.py:119-160 | in every interleaving free and held permits add up to the maximum, and every permit acquired is released exactly once |
| Readiness.WorkersAreBounded | app/main.py:130-156 | never more than the maximum of probe workers run, those of timed-out requests included |
| Readiness.ReadyMeansBothProbesReturned | app/main.py:138-148 | true is answered only if both probes of that call returned without error |
| Readiness.ReadyIff | app/main.py:138-156 | true is answered exactly if the call looked at the result, while it still waited for it, after both its probes had returned |
| Extraction.Segment | app/importer/publication_extraction.py:805-917 | the flushed buffers concatenated are exactly the accepted fragments in reading order, each of one section with one label, status and column year; within a section a cut falls exactly where a line begins an entry after the texts so far, or a blank line follows complete ones |
| Extraction.CutsAreDetermined | app/importer/publication_extraction.py:891-917 | there is only one way to cut the accepted text so |
| Extraction.Segmenter.Line | app/importer/publication_extraction.py:831-916 | one line, classified in the order of the source's tests, moves entries, buffer and what is in force as the step function does |
| Extraction.NextFollows | app/importer/publication_extraction.py:831-916 | whatever the cuts, entries and buffer together hold the text that a scan without cuts accepts |
| Extraction.AcceptedInOrder | app/importer/publication_extraction.py:831-916 | accepted fragments come in reading order, two of one line only where an inline heading splits it |
| Extraction.EntriesAreOrdered | app/importer/publication_extraction.py:813-917 | entries come in reading order, and share a line only as neighbours on either side of an inline heading |
| Extraction.EntriesRespectHeadings | app/importer/publication_extraction.py:838-891 | no entry crosses a section or stop heading, and each carries the label and status of the nearest heading above its text, the inline heading in whose line it stands, or those of a dedicated list where no heading precedes |
| Extraction.KindsAre | app/importer/publication_extraction.py:831-897 | which tests make a line an inline heading, a heading, a stop heading, a blank line, body text or nothing |
| Extraction.ActiveIff | app/importer/publication_extraction.py:806-883 | text is taken exactly while the nearest heading above opened a section, or in a dedicated list where no heading precedes |
| Extraction.EntriesHoldThePieces | app/importer/publication_extraction.py:831-916 | all entries together hold exactly what the lines contribute, line by line: body lines whole, what inline headings leave, nothing else |
| Extraction.EntriesAreDated | app/importer/publication_extraction.py:893-917 | an entry has the column year of the nearest line above, its own first one included, that sets or ends it |
| Extraction.CutsSayWhy | app/importer/publication_extraction.py:813-916 | each entry carries the reason for which it was cut off |
| Candidates.Collect | app/importer/publication_extraction.py:739-787 | every candidate is that of an acceptable entry (long enough, naming the applicant, dated or of a kind that need not be, no contact line, punctuated), in order, and every acceptable entry is represented by the first of its key |
| Candidates.Unique | app/importer/publication_extraction.py:919-923 | of candidates with one page span and wording exactly the first stays |
| Candidates.ExtractCandidates | app/importer/publication_extraction.py:790-923 | the result is the text, cut exactly where the segmentation cuts, filtered and merged |
| Candidates.CandidatesAreOrdered | app/importer/publication_extraction.py:813-923 | filtering and merging keep the reading order: a candidate begins no earlier than its predecessor ends, and only neighbours share a line |
| Candidates.NoCitationIsLost | app/importer/publication_extraction.py:919-923 | every acceptable entry has exactly one candidate of its pages and wording, beginning no later than itself |
| Candidates.CandidatesSpeakOfEntries | app/importer/publication_extraction.py:739-787 | every candidate has the span, label, status and text of an entry, its year by the rules for years, and meets the five conditions |
| Candidates.EntriesHaveCandidates | app/importer/publication_extraction.py:739-787 | every entry that meets the five conditions has a candidate of its pages and folded text |
| Orcid.ValidOrcid | app/applicant/fields.py:380-389 | the doubling loop accepts exactly the strings of the pattern whose last character is the expected one |
| Orcid.HyphensDoNotMatter | app/applicant/fields.py:380-383 | a hyphen may stand anywhere, and every other character counts |
| Orcid.WeightedIsPowerSum | app/applicant/fields.py:384-386 | the doubling loop computes the sum of digits weighted by powers of two |
| Orcid.AcceptedIffSumIsOne | app/applicant/fields.py:384-389 | at any length, exactly the strings whose weighted sum is 1 modulo 11 are accepted, the pure system MOD 11-2 of ISO/IEC 7064:2003 |
| Orcid.SingleChangeAcceptedIff | app/applicant/fields.py:380-389 | a valid string with one character changed is accepted exactly if a digit became the same digit of another script |
| Orcid.SwapAcceptedIff | app/applicant/fields.py:380-389 | a valid string with two different neighbours swapped is accepted exactly if they are one digit in two scripts |
| Orcid.AsciiErrorsAreCaught | app/applicant/fields.py:380-389 | with ASCII digits every single change and every swap of unlike neighbours is rejected |
| Orcid.OtherScriptIsAccepted | app/applicant/fields.py:380-389 | a valid identifier of sixteen characters that stays valid with its first digit in another script |
| LegacyUpgrade.UpgradeIsIdempotent | app/applicant/fields.py:204-259 | upgrading twice is upgrading once, for each section |
| LegacyUpgrade.UpgradesCommute | app/applicant/fields.py:262-266 | the four section upgrades may be applied in any order |
| LegacyUpgrade.RoundTripIff | app/applicant/review.py:155-201 | current values come back from the dual format exactly if the fields that an upgrade would supply are present |
| LegacyUpgrade.LegacyRecordKeptIff | app/applicant/review.py:165-188 | what upgrade and dual format make of any legacy degree record: the category in upper case of a doctorate or MD, the date of a PhD alone; so it is kept exactly if its category is so spelled, or absent, and its date, if any, is that of a PhD |
| LegacyUpgrade.BachelorIsForgotten | app/applicant/review.py:173-180 | the record of a bachelor, whose category is gone |
| LegacyUpgrade.EmploymentWordsAreRead | app/applicant/fields.py:211-223 | which words become true, which false, and that any other becomes absent |
| LegacyUpgrade.ProfileIsInferred | app/applicant/fields.py:247-256 | an address says that there is a profile, failing that the old denial that there is none |
| LegacyUpgrade.SelfDescriptionIsDropped | app/applicant/fields.py:207-210 | a self-described gender becomes absent, any other stays, the description goes |
| LegacyUpgrade.ProfileIsDenied | app/applicant/review.py:189-200 | what the previous release reads of a profile and of the citation total stored before |
| Manifest.MatchWork | app/importer/publication_reconciliation.py:289-366 | a unique work with the DOI first; else refusal if the citation contains several maximal known titles; else a unique work of the title and a compatible or exact year; else a unique work whose title the citation contains; else none |
| Manifest.AnswerIsUnique | app/importer/publication_reconciliation.py:289-366 | these rules leave exactly one answer |
| Manifest.AmbiguityIsSettledFirst | app/importer/publication_reconciliation.py:557-600 | a citation that matched nothing as first parsed cannot turn out ambiguous when it is matched again after resolution |
| Manifest.DoiSettlesIt | app/importer/publication_reconciliation.py:302-310 | the answer is by DOI exactly for the only standing work of the applicant with the citation's DOI |
| Manifest.AmbiguousIff | app/importer/publication_reconciliation.py:312-326 | the answer is ambiguous exactly if the DOI settles nothing and the citation names works of two titles |
| Manifest.TitleSettlesIt | app/importer/publication_reconciliation.py:329-351 | failing that, it is by title exactly for the only work of the title whose year is unknown or at most one off, or of several such works the only one of the very year |
| Manifest.CitationSettlesIt | app/importer/publication_reconciliation.py:312-366 | failing that, it is the only work with such a year whose title of sixteen characters or more the citation contains and no longer one does, and otherwise there is none |
| Deduplication.Repair.QuarantineEmpty | app/importer/publication_reconciliation.py:105-129 | exactly the works without bibliographic fields and without an explicit disposition are set aside |
| Deduplication.EmptyArtifactsAreSetAside | app/importer/publication_reconciliation.py:105-129 | which works those are: the five fields blank, and no disposition or a pending one |
| Deduplication.Repair.Deduplicate | app/importer/publication_reconciliation.py:132-168 | of the works of one applicant and long title all but the first best one are set aside in its favour; everything else is unchanged |
| Deduplication.AtMostOneStanding | app/importer/publication_reconciliation.py:132-168 | afterwards an applicant has at most one work of a long title that is not set aside |
| Deduplication.BestCopyIsKept | app/importer/publication_reconciliation.py:144-151 | for every long-titled work some copy of that title which it does not better is left exactly as it was |
| Deduplication.KeptCopyComesFirst | app/importer/publication_reconciliation.py:94-151 | the copy kept comes first by disposition, of equals by DOI, then by resolution, then by position |
| Deduplication.PrimaryLastsIff | app/importer/publication_reconciliation.py:94-102 | a second pass chooses the same work exactly if that one is pending or better, or itself a NON_PUBLICATION that leads its copies by DOI, resolution or position |
| Deduplication.SecondPassChangesNothingIff | app/importer/publication_reconciliation.py:132-168 | a second pass is without effect exactly if every chosen work lasts, or had already been set aside in favour of the copy that takes its place |
| Deduplication.ReviewedPrimariesLast | app/importer/publication_reconciliation.py:94-102 | they do when every work has a known disposition |
| Deduplication.StandsAfterTwoPassesIff | app/importer/publication_reconciliation.py:94-168 | of the copies of a title exactly the chosen one stands after two passes, and that only if it was not set aside to begin with and lasts; so of copies never reviewed none |
| Deduplication.UnreviewedCopiesAreLost | app/importer/publication_reconciliation.py:94-168 | two works of one title of 26 characters without a disposition, neither of which stands after two passes |
| Reconciliation.FillFields | app/importer/publication_reconciliation.py:662-665 | blank fields take the parsed value where there is one, all others keep theirs |
| Reconciliation.Reconciler.ReconcileReview | app/importer/publication_reconciliation.py:410-428 | explicit reviews stay, resolved works are not demoted to pending, the rest takes the candidate's review |
| Reconciliation.Reconciler.AddOccurrence | app/importer/publication_reconciliation.py:369-407 | an occurrence is recorded on the work unless its identifier is present anywhere |
| Reconciliation.Reconciler.ReconcileOne | app/importer/publication_reconciliation.py:555-695 | one candidate with all its branches: ambiguous, resolved and searched again, skipped, added, merged |
| Reconciliation.Reconciler.Reconcile | app/importer/publication_reconciliation.py:551-695 | the loop over all candidates, refused exactly if some applicant is unknown |
| Conservation.RunConserves | app/importer/publication_reconciliation.py:551-695 | over any run no work, occurrence or status row disappears, identities and non-blank metadata stay, explicit reviews survive, three status rows per work and references per occurrence balance, and each candidate has exactly one audit row, in order |
| Conservation.RunStaysConsistent | app/importer/publication_reconciliation.py:369-407 | occurrence identifiers stay distinct, and every occurrence is listed by a present work with its identifier and folder, and conversely |
| Conservation.StepIsDetermined | app/importer/publication_reconciliation.py:555-695 | a candidate has one outcome |
| Conservation.RecordedOnce | app/importer/publication_reconciliation.py:376-380 | a citation recorded once adds neither occurrence nor reference again, whichever work it now matches |
| Decisions.MatchIsRecorded | app/importer/publication_reconciliation.py:557-695 | a citation that matches a work, as parsed or as resolved, fills that work's blank fields, updates its review, is recorded on it unless its identifier was there, and is audited with that work and identifier |
| Decisions.UnmatchedIsAdded | app/importer/publication_reconciliation.py:640-695 | a citation that matches nothing and is worth it becomes a work with its fields, review, occurrence and three rows of counts, and is audited |
| Decisions.RestIsSkipped | app/importer/publication_reconciliation.py:564-639 | an ambiguous citation, a non-publication and one that cannot be parsed change nothing but the audit, which says why |
| Decisions.MatchedNothingOrAmbiguous | app/importer/publication_reconciliation.py:557-639 | there is no fourth case |
| Decisions.RunAuditIsTrue | app/importer/publication_reconciliation.py:551-695 | over any run every audit row with an occurrence names a recorded one, of its own citation, and a row lacks one only if its citation was skipped |
| Uptake.UptakeIff | app/importer/publication_reconciliation.py:557-659 | a step adds a work exactly if neither the parsed nor the resolved citation matches one, and the citation is worth taking up |
| Uptake.StillNoMatchIff | app/importer/publication_reconciliation.py:289-366 | next to its own work a citation still matches nothing exactly if its DOI, if any, is on another standing work, and its title, if any, on several of compatible years, of which some have its year if it has one |
| Uptake.TakenUpAgainIff | app/importer/publication_reconciliation.py:557-659 | a citation taken up as a new work is taken up again when an equal one follows directly in the same run exactly under this condition on the document before, and, if a bibliography resolved it, if the citation as first parsed does not notice that work either; the second work has the identifier of the first |
| Uptake.ShortTitleIsTakenUpTwice | app/importer/publication_reconciliation.py:557-659 | two pending works of one short title and twice a citation with that title alone: four works, the last two under one identifier |
| NextRun.NothingAfterRepairsIff | app/importer/publication_reconciliation.py:105-168 | on a repaired manifest a search finds nothing exactly if of the works before the repairs those left alone have the DOI not exactly once; the first best copy of a long title does not fit, or a short title is on too many or none; and the citation contains at most one maximal title left, of an incompatible year |
| NextRun.TakenUpAfterRepairsIff | app/importer/publication_reconciliation.py:548-659 | whatever manifest a run begins on, it takes its first citation up exactly if this holds for the parsed and the resolved citation |
| NextRun.TakenUpByNextRunIff | app/importer/publication_reconciliation.py:548-659 | a citation taken up as a new work by the last step of one run is taken up again by the first step of the next exactly if DOI and wording lead to no work left, and its long title is that of a kept copy which is itself set aside or of an incompatible year, or its short title is on several standing works, and, if a bibliography resolved it, nothing left matches it as first parsed; the second work has the identifier of the first |
| NextRun.LongTitleIsLostIff | app/importer/publication_reconciliation.py:132-168 | the cases of a long title: its own work is found if it is the first best copy; another first best copy is found if it stands and the years agree; otherwise DOI and wording decide |
| NextRun.DatelessLongTitleIsFound | app/importer/publication_reconciliation.py:132-168 | a citation with a long title and no year, whose work had a known disposition, is found by the next run |
| NextRun.OtherYearIsTakenUpAgain | app/importer/publication_reconciliation.py:548-659 | a published work of 2010 and a citation of its title with the year 2015: found again within the run, taken up a second time by the next |
| ManifestRun.ReconcileManifest | app/importer/publication_reconciliation.py:533-701 | from repair to result: no result if an applicant is unknown, otherwise the works as both repairs leave them and a conserving run, with balances and consistency as in the base manifest, and an audit of one true row for each candidate |

## Left out

- Hashes and authenticated encryption are injective constructors; UUIDs, tokens, nonces and object keys are a supply of fresh values, so collisions are not modelled. The byte layout of the associated data is not modelled: a binding is its four identifiers.
- Drafts.InMemoryDraftRepository.Save: values are compared by equality of tokens; Python's `1 == True` and the difference between equal values of unlike JSON form are not modelled.
- Drafts.InMemoryDraftRepository.Load: the snapshot returned is a value; that its dictionary of values is the one the repository holds, which a caller could edit in place, is not modelled.
- Stripping and upper-casing of actors, reasons, codes and labels happen before the model; an empty string stands for a blank one.
- Who may call an operation is modelled only where the code itself checks it (the administrator group); HTTP routing, sessions passed by the routes and the SQL repositories are not modelled.
- Upload.ApplicantDocumentService.Upload: PDF admission and malware scanning enter as a verdict; a failure to remove a file and a crash between two disk operations are not modelled.
- Confirmations.SectionConfirmationService.Confirm: validation of the section's fields before confirmation enters the workflow as one truth value.
- PdfPackage.Cleaner.RemoveUnsafe: entries of a dictionary are visited in any order rather than in that of the file, and object identities are not reused; Python's recursion limit is modelled in `PdfValidation` only.
- PdfValidation.Admit: what `str` makes of a reference is up to the PDF library and a parameter, and taken to be some text: that it might raise on a cycle of references, which would refuse the document, is not modelled; the size, page-count, encryption and file-name checks of `validate_pdf` are not modelled; keys of dictionaries are strings.
- Installer.Host.Deploy: preparation of the release before the snapshot is not modelled; removal of the staging link cannot fail; release tests and service commands are steps that succeed or fail without touching managed paths. Restoration is proved for hosts on which `current` is not routed through the managed configuration, managed paths are not links into the release area, and nobody has made the restorer's temporary names links. Failures inside `_restore` are reported, with no promise.
- RateLimit, ApplicantAuth: clock regressions and process restarts are not modelled where a theorem asks for nondecreasing times.
- ApplicantAuth.ApplicantAuthService.Authenticate: Entra sign-in, revocation and CSRF tokens are not modelled; stored records are values in maps, updated in place of the entry.
- PublicationLookup.CrossrefPublicationLookup.Lookup: the transport and the parsing of its answer are one function from identifiers to answers or failures; the locked sections and what lies between them are atomic steps of the threads.
- Readiness.PermitsAreConserved: an acquisition that times out at the very moment it is granted is one atomic event, and worker tasks are not cancelled.
- Extraction.Segment: the repeated-furniture statistics are one classifier, and stripping and joining of lines, like the regular expressions, are functions taken as given.
- Extraction.Segmenter.Line: the section counter is bookkeeping for the proofs, not a variable of the source.
- Manifest.MatchWork: title normalisation, case folding, parsing, classification and the public bibliography are functions taken as given; a year that is not an integer, which the source would fail on, is treated as absent.
- Reconciliation.Reconciler.Reconcile: candidates come in the order in which the source has sorted them; texts of reasons and evidence are abbreviated to what they depend on.
- `_finish`, the summary counts and the self-hash of the manifest are derived from the result and not modelled.
- `_quarantine_empty_legacy_works` and `_deduplicate_exact_title_works` record touched folders, which `Deduplication` carries without promising anything about them.
- Field validation, projections, reports, charts, approval, access control lists and evaluation groups would add easier members only.
