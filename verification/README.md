# Verified model of the review engine

A human-in-the-loop review engine reads a mailbox, recommends what to do with each thread, and does
nothing until a person says so. This project models its core in Dafny and proves what it promises:
what reaches the mailbox when calls fail half way, what is still true after any sequence of
requests, and what each transformation of a document keeps.

Each component has one module of specification (values and functions), lemmas about it, and, where
the source updates rows in place, a module whose classes and methods are proved to leave exactly
what the specification says. A raised exception is a transaction rolled back, so an operation gives
the new state or leaves the old one.

| component | files |
|---|---|
| Action execution against an unreliable mailbox | Mailbox, Actions, ActionRuns, ActionSafety, ActionDrafts, ActionOutcomes, ActionEffects, ActionRows |
| Evidence as a cache of the mailbox | Scopes, Evidence, EvidenceStore |
| Playbook edits and the revision store | Playbook, PlaybookEdits, PlaybookEffects, PlaybookValidation, PlaybookStore |
| Rules, condition trees, wording and generated patterns | Text, Conditions, Wording, Patterns, PatternReadings, RuleStore, RuleReadings |
| Guided review | ReviewPlaybook, Submissions, GuidedReview, GuidedOutcomes |
| Daily review: decisions, states, plans, accounting, order of rows | ReviewDecisions, ReviewPlans, ReviewStates, Presentation |
| Shape of the published contract | Schema, SchemaReadings |
| Shared facts about sequences, sets and stable sorting | Common, Sorting |

The mailbox is a map from thread to labels with a list of drafts. Every client call takes one entry
of a fault script, which decides whether it works, fails before taking effect, fails after, or
answers without acting; the lemmas quantify over every script. Times are integers that are set or
not. Ids of rows are their places in a table that only grows.

## Where the code and its documentation part

Each of these is stated and proved; the model follows the code.

- `move_step` reorders a list that `renumber` sorts back by the untouched positions, so on any
  edited playbook an accepted step move changes nothing (`MoveStepWorksExactlyWhen`,
  `MoveStepChangesNothing`).
- A proposal of source changes alone renumbers activities by where they are stored, which changes
  the working order unless they were stored in it (`SourceOnlyKeepsSequenceExactlyWhen`).
- A retry cannot produce a second draft unless the record of the first attempt was rolled back; each
  such attempt adds one draft (`AtMostOneDraft`, `LostRecordDoublesTheDraft`).
- A send is verified by its draft being gone, and a draft by the one it names, which a retry may
  have adopted, being there. Completed, a send may not have gone out and a draft may be another's
  (`CompletedSendWentOutExactlyWhen`, `CompletedSendMayNotHaveGoneOut`, `CompletedDraftIsThere`,
  `CompletedDraftMayBeAnothers`).
- A thread Gmail no longer has is stored with no labels, "which no scope admits"; every scope outside
  the inbox may admit it (`NowhereIsAdmitted`).
- The first subject reading offered is meant to be the pattern where there are numbers; it is always
  the exact subject (`ExactComesFirst`). The pattern also lets by one closing newline
  (`SearchExactlyWhen`), and a subject within its limit is refused outright where its words and the
  names of its numbers are too long together to be a condition (`RefusedExactlyWhen`,
  `RefusedWithinTheLimit`).
- "A message may only name values the match actually captures": the check accepts any name read
  anywhere in the tree. A match need not capture a name of an alternative that did not match, of a
  pattern it must not match, of words that are no pattern, or of an optional group
  (`OfferedMayNotBeCaptured`, `ExcludedPatternNeverCaptures`, `NotAPatternNeverCaptures`,
  `OptionalNameMayNotBeCaptured`). Which names every match captures is `AlwaysCapturedExactlyWhen`.
- A rule's capability is set when it is proposed; an amendment is checked and digested under the
  capability its draft names, and read back under the rule's. So the digest is not that of what the
  rule says, a rule can be in force that recommends what its own capability was never granted, and
  two live rules can read back alike or share a digest and read apart, unless every amendment names
  the rule's own capability and what no other live rule says (`SaysWhatWasCheckedExactlyWhen`, `PassesUnderOwnExactlyWhen`,
  `UngrantedRuleInForce`, `ProposalMakesTwin`, `SharedDigestReadsApart`, `CarefulRunsKeepApart`).
- Proposing refuses a rule whose digest a live rule has; amending does not look
  (`TwinsExactlyWhen`, `ProposalTwinsExactlyWhen`).
- The three counts of a standing are called disjoint; they are exactly when no row has two attempted
  actions and no action is for a row neither approved nor failed (`NeverUnderReports`,
  `TwoActionsCountTwice`).
- An abandoned review is reported as it was left, except that one without a plan is given one
  (`AbandonedIsLeft`).
- The fingerprint leaves out everything under a key such as `summary`, including a property of that
  name (`StripsAlikeExactlyWhen`, `PropertyNamedSummaryIsUnseen`), and a `$ref` member that is itself
  an object can become a reference that was never one (`LeavesOnlyUnfollowableExactlyWhen`,
  `TextCanBecomeAReference`).
- A reference is looked up step by step as it is written, so `~1` and `~0` are not undone as section
  4 of RFC 6901 has it (`LookupIsSubsetExactlyWhen`, `EscapedKeyIsFound`).

## Model

| member | source | states |
|---|---|---|
| `ActionSafety.OneEffectPerThread` | adminos/domain/actions.py:316-402 | Over every run of prepare, execute, retry and verify calls, each Gmail call free to fail before or after acting or to be ignored, and with transactions lost after Gmail acted: a label, archive, move, trash or untrash leaves its thread as it was or as one application of the plan makes it; where every execute verifies, completed means the effect is there |
| `ActionSafety.ExecuteAppliesAtMostOnce` | adminos/domain/actions.py:316-402 | One execute on any mailbox changes at most this thread, by one application of its plan, and completing under required verification means Gmail shows the effect, whatever it answered to the write |
| `ActionSafety.PerformAppliesAtMostOnce` | adminos/domain/actions.py:623-861 | Each executor of a thread action writes the plan once or not at all, wherever its calls fail |
| `ActionSafety.ReadBackReads` | adminos/domain/actions.py:637-874 | Reading back writes nothing and says yes to a thread action only when its effect is in the mailbox |
| `ActionSafety.VerifyAppliesNothing` | adminos/domain/actions.py:414-439 | Verifying again never writes, and completes an action only when its effect is there |
| `ActionSafety.OnlyGrantedActionsRun` | adminos/domain/actions.py:255-348 | An execute that changes the mailbox or the action is of a prepared, unfinished action the capability may take and carry out at that moment, to a folder it still files in, with writes on |
| `ActionSafety.AppliedTwiceIsAppliedOnce` | adminos/domain/actions.py:316-328 | Applying a thread plan twice is applying it once, which is what makes a retry harmless |
| `ActionEffects.ExecuteDoes` | adminos/domain/actions.py:316-402 | A granted thread action whose calls all work, first attempt or retry, leaves its thread with the labels its plan means, by kind, and the rest of the mailbox as it was; it is completed and its item executed, unless verifying finds that the plan asked for a label to be both there and gone, and then it fails |
| `ActionEffects.DoneAsAsked` | adminos/domain/actions.py:295-402 | From an approval that is granted and can be planned, preparing and executing completes the action and leaves the thread as was asked: labels added and removed, out of the inbox, under the folder, in or out of the trash, and nothing else changed |
| `ActionEffects.LastAttemptDoes` | adminos/domain/actions.py:316-402 | After any run whatever, with any calls failed in it, an attempt whose calls all work leaves the thread with the effect of the plan on what was first there, or with what applying it once left, and completes the action where the plan can be met |
| `ActionEffects.PreparedExactlyWhen` | adminos/domain/actions.py:295-313 | An approved action is prepared exactly when it is granted, has an executor, files in a folder of its capability and its request can be planned; the plan then has every detail as it was asked for and nothing else of the row changes but the event that says so |
| `ActionEffects.PerformWorks` | adminos/domain/actions.py:623-861 | Each executor of a thread action, its calls working, leaves the labels its plan means and says whether they were there already |
| `ActionEffects.VerifyDoes` | adminos/domain/actions.py:414-439 | Verifying an action that was tried, its calls working, completes it exactly when the mailbox shows its effect and fails it otherwise, item and history saying the same |
| `ActionEffects.SendDoes` | adminos/domain/actions.py:956-1004 | A send whose draft is there and reads as it was approved goes out, once, with the approved message id; one edited since stays where it is and the action fails |
| `ActionEffects.DraftDoes` | adminos/domain/actions.py:894-942 | A draft action whose calls work writes one draft on its thread and names it, and on a retry that lost its reference names the first draft the thread has and writes none |
| `ActionRuns.AuditHolds` | adminos/domain/actions.py:295-509 | In every run an action rests approved, prepared, completed or failed and its last event says which; events are numbered 1 to n and never rewritten; attempts equal the EXECUTION_STARTED events; the item state follows |
| `ActionRuns.ExecuteAudited` | adminos/domain/actions.py:316-402 | One execute keeps that audit and only adds events |
| `ActionRuns.VerifyAudited` | adminos/domain/actions.py:414-439 | One verify keeps that audit and only adds events |
| `ActionRuns.RecordedIsAudited` | adminos/domain/actions.py:160-176 | A newly recorded action starts with that audit in place |
| `ActionDrafts.AtMostOneDraft` | adminos/domain/actions.py:894-926 | Over every run, given honest answers and that nobody removes drafts, the drafts a reply creates are those whose record was rolled back on a first attempt, or one more; while no attempt is on record they are exactly those |
| `ActionDrafts.DraftExecuteCreatesOnce` | adminos/domain/actions.py:894-942 | One execute creates at most one draft, and on a retry none while the thread has one: a lost reference is adopted rather than written again |
| `ActionDrafts.LostRecordDoublesTheDraft` | adminos/domain/actions.py:347-355 | Such a draft is possible: for every reply, a first attempt whose record is rolled back after Gmail wrote the draft is followed by a first attempt that writes a second |
| `ActionDrafts.AtMostOneSend` | adminos/domain/actions.py:945-1004 | Over every run, drafts edited by others included, a send goes out at most once and what goes out is the draft and message id that were approved |
| `ActionDrafts.SendExecute` | adminos/domain/actions.py:956-1004 | One execute of a send sends the approved draft with the approved message id once or sends nothing |
| `ActionOutcomes.CompletedSendWentOutExactlyWhen` | adminos/domain/actions.py:945-1004 | Over every run of verified attempts, a completed send went out exactly when its draft was there to begin with and nobody else removed it: what is verified is that the draft is gone |
| `ActionOutcomes.CompletedSendMayNotHaveGoneOut` | adminos/domain/actions.py:989-1004 | So a send that fails before sending, and whose draft somebody then deletes, completes on the retry with nothing sent |
| `ActionOutcomes.CompletedDraftIsThere` | adminos/domain/actions.py:894-942 | Over every run of verified attempts, a completed draft action names a draft that is there, unless somebody else removed it |
| `ActionOutcomes.DraftOutcome` | adminos/domain/actions.py:929-942 | A verified attempt at a draft completes it only on reading that draft as there |
| `ActionOutcomes.CompletedDraftMayBeAnothers` | adminos/domain/actions.py:899-907 | The draft need not be its own: a retry adopts one that somebody else wrote on the thread |
| `ActionRows.PrepareAction` | adminos/domain/actions.py:295-313 | The rows after a prepare are those of the specification, or untouched where it raises |
| `ActionRows.ExecuteAction` | adminos/domain/actions.py:316-402 | The action, its item and the mailbox after an execute are those of the specification, which ExecuteDoes, SendDoes and DraftDoes tell from what was granted and asked and ExecuteAppliesAtMostOnce bounds under every fault; a raise rolls the rows back and not the mailbox |
| `ActionRows.AttemptAction` | adminos/domain/actions.py:357-402 | The write, its event and the read back leave what the specification says: with calls that work the effect of the plan, and a completion exactly where it can be met (AttemptWorks) |
| `ActionRows.VerifyAction` | adminos/domain/actions.py:414-439 | The same of a verify |
| `ActionRows.SettleVerified` | adminos/domain/actions.py:442-461 | Settling records VERIFIED, completes the action and marks the item executed |
| `ActionRows.FailAction` | adminos/domain/actions.py:464-479 | Failing marks the action and the item failed and records why |
| `ActionRows.ReviewAction.RecordEvent` | adminos/domain/actions.py:482-509 | An event takes the sequence after the highest and the state and reference the action has |
| `ActionRows.ActionTable.EnsureActions` | adminos/domain/actions.py:130-179 | The loop records one action for each approved intent that has none, changes no other, and returns the actions of the intents in the order of the items |
| `ActionRows.EnsuringRecordsOnce` | adminos/domain/actions.py:130-179 | Each approved intent ends with exactly one recorded action, none recorded before is rewritten, and none is recorded but for an item that was approved |
| `ActionRows.EnsuringAgainAddsNothing` | adminos/domain/actions.py:137-142 | Recording again for the same approvals adds no action |
| `EvidenceStore.SyncAgrees` | adminos/domain/evidence.py:137-290 | After a sync that saw everything, pruning or not, every stored row admitted by the scope of a capability it is attributed to carries the labels Gmail has now; the counted threads are those created, updated and unchanged, each once; syncing again would create and update nothing |
| `EvidenceStore.PruneKeepsScope` | adminos/domain/evidence.py:262-264 | A prune keeps every thread a watched search returned and the scope admits on its own labels, with its current labels |
| `EvidenceStore.Table.SyncGmailEvidence` | adminos/domain/evidence.py:137-290 | The whole sync in place: refused with nothing changed, or every row as one sync makes it, counted once. A prune outside the default scope is always refused and for that reason; one with an incomplete scan, or with more stale rows than the limit, is never done; with no more of them than the limit it is done exactly when every thread found or stale could be read and a prune saw a complete scan; it says it stopped short exactly when there were more |
| `EvidenceStore.Table.SearchMailbox` | adminos/domain/evidence.py:182-206 | The nested search loops collect attribution, owners, watched scopes and what was missed, in order |
| `EvidenceStore.Table.ReadFoundThreads` | adminos/domain/evidence.py:214-230 | The loop over found threads records or notes each one and counts the recorded; it fails exactly when one of them could not be read |
| `EvidenceStore.Table.RecheckStaleThreads` | adminos/domain/evidence.py:238-260 | The loop over recorded threads the scan missed asks about each stale one; it fails only on one that cannot be reached, and otherwise stops short exactly when there are more of them than the limit |
| `EvidenceStore.Table.RecordGmailThread` | adminos/domain/evidence.py:75-134 | A thread is created, updated, or only has its whereabouts refreshed when neither content nor attribution changed |
| `EvidenceStore.Table.NoteThreadLabels` | adminos/domain/evidence.py:349-364 | Labels and known snooze are noted on a row that exists and no row is made |
| `EvidenceStore.Table.RecheckThread` | adminos/domain/evidence.py:367-407 | A recorded thread is re-attributed by the labels it carries, or recorded as nowhere when Gmail no longer has it |
| `EvidenceStore.Table.PruneGmailEvidence` | adminos/domain/evidence.py:49-72 | Exactly the rows not in the list go, with their classifications, and the count is how many |
| `EvidenceStore.TalliesPartition` | adminos/domain/evidence.py:210-230 | Every recorded thread is counted under exactly one verdict |
| `EvidenceStore.SettledTally` | adminos/domain/evidence.py:137-165 | Over rows already synced against the same mailbox a sync counts nothing created and nothing updated |
| `Evidence.SyncedRowsAreCurrent` | adminos/domain/evidence.py:313-407 | What one sync leaves of any one thread, if a scope would admit it, carries the labels Gmail has now |
| `Evidence.SyncAgainChangesNothing` | adminos/domain/evidence.py:75-134 | Syncing a thread twice over the same mailbox is syncing it once |
| `Evidence.InScopeIsRecorded` | adminos/domain/evidence.py:182-230 | A thread a watched search returned and the scope admits is recorded under that capability |
| `Evidence.RecordedExactlyUnder` | adminos/domain/evidence.py:182-230 | A found thread is recorded, with the labels and content Gmail has, under exactly the capabilities whose search returned it and in whose place its own labels put it, and under none it is left out |
| `Evidence.RecheckedExactlyUnder` | adminos/domain/evidence.py:367-407 | A stale thread is recorded again under exactly the capabilities one of whose labels it carries and whose scope admits it, on the snooze last known |
| `Evidence.VerdictExactlyWhen` | adminos/domain/evidence.py:75-134 | A thread is created exactly where there was no row, unchanged exactly where neither content nor attribution is new, and the row holds what was read; a snooze that was not observed keeps the one known |
| `Evidence.ScanAllCovers` | adminos/domain/evidence.py:182-206 | The search visits each thread once and attributes it to every capability whose search returned it within the limit |
| `Scopes.NowhereIsAdmitted` | adminos/domain/mailboxes.py:79-119 | A thread with no labels at all is admitted by exactly the scopes outside the inbox whose snooze rule allows it |
| `Scopes.RequestedScopeWins` | adminos/domain/mailboxes.py:221-240 | Only the default review defers to the mailbox a capability is configured with; a scope asked for is used as it is, and what is used is always one of the four |
| `Scopes.AdmittedExactlyWhen` | adminos/domain/mailboxes.py:79-119 | Each scope admits exactly the threads in its place: with the inbox label for the inbox and without it in the archive, never in trash or spam but for everything, not merely sent or a draft, awake in inbox and archive, and known to be asleep in snoozed |
| `Scopes.SearchesExactly` | adminos/domain/mailboxes.py:41-77 | The labels and query each scope asks Gmail for, and what an answer to them proves of a snooze |
| `Scopes.FoundIsAdmittedExactlyWhen` | adminos/domain/mailboxes.py:65-119 | Judged on what its own search proves, a thread is admitted exactly when its labels put it in the place of the scope |
| `PlaybookEdits.AcceptedChangesNormalise` | adminos/domain/playbook.py:512-547 | From any document with distinct keys every accepted list of changes leaves distinct activity and step keys, positions 10, 20, ... at both levels and lists stored in that order |
| `PlaybookEffects.EditDoesWhatItSays` | adminos/domain/playbook.py:534-788 | On a playbook in order every accepted edit other than an activity move changes its own target as asked and nothing else |
| `PlaybookEffects.AcceptedExactlyWhen` | adminos/domain/playbook.py:534-751 | From distinct keys an edit is accepted exactly when the activities and steps it names are there, or an activity to enable is a known one, what it adds is not there, what it moves beside is another, and a scope to clear is set |
| `PlaybookEffects.AddedThenRemoved` | adminos/domain/playbook.py:705-732 | A step added and then removed leaves the playbook as it was |
| `PlaybookEffects.DisabledThenEnabled` | adminos/domain/playbook.py:608-650 | Turning an activity off and on again leaves the playbook as it was |
| `PlaybookEdits.MoveActivityPutsBeside` | adminos/domain/playbook.py:653-666 | Moving an activity puts it right before or after its anchor and keeps the order of all the others |
| `PlaybookEdits.MoveActivityIsUndone` | adminos/domain/playbook.py:653-666 | On a playbook in order every accepted activity move is undone by some second move |
| `PlaybookEdits.MoveIsUndoneAnywhere` | adminos/domain/playbook.py:534-547 | From any document with distinct keys some second move leaves what renumbering the first one alone would have |
| `PlaybookEdits.MoveStepWorksExactlyWhen` | adminos/domain/playbook.py:685-702 | A step moved within its activity ends where it was put exactly when every step it passes shares its position, because renumbering sorts by the untouched order |
| `PlaybookEdits.MoveStepChangesNothing` | adminos/domain/playbook.py:767-788 | On a playbook in order an accepted step move changes nothing at all |
| `PlaybookEdits.ReorderSurvives` | adminos/domain/playbook.py:767-788 | A reordering of steps survives renumbering exactly when the steps passed over share the moved one's position |
| `PlaybookEdits.SourceOnlyKeepsSequenceExactlyWhen` | adminos/domain/playbook.py:534-540 | A proposal of source changes alone keeps the working order exactly when activities were stored in that order |
| `PlaybookEdits.RenumberedTwice` | adminos/domain/playbook.py:767-788 | Renumbering twice is renumbering once |
| `PlaybookValidation.EditedIsNeverAmbiguous` | adminos/domain/playbook.py:215-386 | An edited playbook is never reported as repeating an activity or step key or sharing a position |
| `PlaybookValidation.DuplicateActivityExactlyWhen` | adminos/domain/playbook.py:354-371 | A duplicate activity is reported exactly when a key repeats |
| `PlaybookValidation.AmbiguousOrderExactlyWhen` | adminos/domain/playbook.py:374-386 | An ambiguous order is reported exactly when two activities, or two steps of a known activity, share a position |
| `PlaybookValidation.ValidatePlaybook` | adminos/domain/playbook.py:215-351 | A code is reported exactly when the playbook has that fault, and nothing is reported exactly when it can be worked: schema, distinct activity and step keys and positions, activities known, every step available, each running activity with a step to run, and one activity enabled |
| `PlaybookValidation.ValidExactlyWhen` | adminos/domain/playbook.py:215-351 | A document is valid, as the revision store asks, exactly when it can be worked with what is configured |
| `PlaybookValidation.ReportedExactlyWhen` | adminos/domain/playbook.py:215-386 | For every document and code, the code is reported exactly when the document has the fault it names: a step that is no enabled capability, a step the registry lacks, a running activity with nothing enabled and the rest |
| `PlaybookValidation.CheckActivity` | adminos/domain/playbook.py:236-330 | One activity is faulted with exactly the codes it deserves: unknown, or a repeated step key, a shared position, a step not available, nothing enabled to run |
| `PlaybookValidation.CheckUnique` | adminos/domain/playbook.py:354-371 | The seen-set loop reports one error for each repeated key |
| `PlaybookStore.RunIsSound` | adminos/domain/playbook_store.py:83-290 | With capabilities changing between steps and failed steps rolled back, a seeded playbook always has exactly one active revision, numbers are distinct, proposals are their changes made to the document they name, and documents never change |
| `PlaybookStore.NoLostUpdate` | adminos/domain/playbook_store.py:231-290 | Whenever a proposed revision becomes active, in whatever step, its document is its own changes applied to the document of the revision it displaces |
| `PlaybookStore.FallBackRestoresNewestWorking` | adminos/domain/playbook_store.py:104-134 | An active revision that no longer validates is marked invalid and the newest revision once in force that validates is restored, no other row changing; it is refused exactly when there is none |
| `PlaybookStore.WorkingIsRead` | adminos/domain/playbook_store.py:104-108 | While the revision in force validates, a read returns it and writes nothing |
| `PlaybookStore.SeededExactlyWhen` | adminos/domain/playbook_store.py:83-103 | A playbook with no revision is seeded, as number 1 and in force, exactly when the seed validates; otherwise the read is refused |
| `PlaybookStore.ProposedExactlyWhen` | adminos/domain/playbook_store.py:187-228 | A proposal is accepted exactly when the playbook can be read and the changes apply to what it reads; it is their document, under the next number, on the revision in force, marked by whether it would validate, and in force itself only once confirmed |
| `PlaybookStore.ConfirmedExactlyWhen` | adminos/domain/playbook_store.py:231-290 | A revision is confirmed exactly when it is not in force, validates now and, if a proposal, was made on the revision in force; it takes that one's place and no other row changes |
| `PlaybookStore.SomethingIsInForce` | adminos/domain/playbook_store.py:231-290 | In a sound store the playbook of every revision has one in force |
| `PlaybookStore.ConfirmIsSound` | adminos/domain/playbook_store.py:231-290 | Confirming keeps exactly one active revision, distinct numbers, derived proposals and every document |
| `PlaybookStore.ProposeIsSound` | adminos/domain/playbook_store.py:187-228 | Proposing keeps exactly one active revision, distinct numbers, derived proposals and every document |
| `PlaybookRows.RevisionTable.ReadActivePlaybook` | adminos/domain/playbook_store.py:83-134 | Seeding, reading and falling back in place leave what the specification says, or nothing changed: the revision in force where it works (WorkingIsRead), the seed where there is none (SeededExactlyWhen), and otherwise the newest that works |
| `PlaybookRows.RevisionTable.ProposeChange` | adminos/domain/playbook_store.py:187-228 | Proposing in place adds the one proposal, or changes nothing |
| `PlaybookRows.RevisionTable.ConfirmRevision` | adminos/domain/playbook_store.py:231-290 | Confirming in place sets the current revision aside and activates the named one, or changes nothing |
| `RuleStore.RunIsSound` | adminos/domain/rulebook_store.py:84-247 | In every run of propose, preview, amend and move, a rule confirmed or in force was tested and then confirmed as its current version with nothing rewritten since; status is the replay of the log; versions chain 1 to n with n current and carry the digest the rule has; dates fit the status, paused exactly when paused; type and capability never change, nor does a retired rule |
| `RuleStore.MoveIsSound` | adminos/domain/rulebook.py:242-281 | Every transition the table allows keeps that history |
| `RuleStore.AmendIsSound` | adminos/domain/rulebook_store.py:140-199 | Amending starts a new version that has earned nothing yet, under its draft's digest and the capability the rule had, and keeps the old ones |
| `RuleStore.RulesStayNarrow` | adminos/domain/rulebook_store.py:84-199 | In every run the current version of every rule passes the breadth check |
| `RuleStore.MayBecomeExactlyWhen` | adminos/domain/rulebook.py:242-258 | Status by status, where a rule may come from to stand there: put to work once confirmed, promoted or paused, promoted only from work, retired from anywhere else |
| `RuleStore.WholeLife` | adminos/domain/rulebook_store.py:84-247 | Every draft that passes can be proposed, previewed, confirmed, activated, paused, resumed, promoted and retired, each accepted, each in the log under its own name, the first activation the one dated |
| `RuleStore.DraftPassesExactlyWhen` | adminos/domain/rulebook.py:507-552 | A draft passes exactly when its tree narrows, its capability is configured, a group it assigns exists, and a recommendation has a capability that permits the action and files in the folder, or asks for a person or nothing |
| `RuleStore.ProposedExactlyWhen` | adminos/domain/rulebook_store.py:84-137 | A rule is written exactly when its draft passes and no live rule has its digest; it reads back as the draft |
| `RuleStore.AmendedExactlyWhen` | adminos/domain/rulebook_store.py:140-199 | A rule is amended exactly while not retired, by a passing draft of its type; it is proposed again with its dates cleared, earlier versions kept, and reads back as the draft under the rule's capability |
| `RuleReadings.TwinsExactlyWhen` | adminos/domain/rulebook_store.py:84-199 | An accepted step keeps every two live rules from reading back alike exactly when no other live rule already reads back as what it writes, an amendment being read back under the capability the rule had |
| `RuleReadings.ProposalTwinsExactlyWhen` | adminos/domain/rulebook_store.py:103-110 | An accepted proposal makes such twins exactly where a live rule reads back as the draft under a digest that is not the draft's |
| `RuleReadings.SaysWhatWasCheckedExactlyWhen` | adminos/domain/rulebook_store.py:52-74 | Over every run from no rules, the digest a rule has is that of what it reads back as, and what it reads back as is the draft that was checked, exactly when the last draft accepted for it named its own capability |
| `RuleReadings.PassesUnderOwnExactlyWhen` | adminos/domain/rulebook.py:507-552 | A draft that passes its check passes it under the rule's capability too, whatever is configured, exactly when it names that capability, or the rule has none and the draft recommends nothing |
| `RuleReadings.CarefulRunsKeepApart` | adminos/domain/rulebook_store.py:84-247 | Over every run whose amendments name the rule's own capability and what no other live rule says, every rule is digested as it reads back and no two live rules read back alike |
| `RuleReadings.ProposalMakesTwin` | adminos/domain/rulebook_store.py:102-113 | A rule proposed, amended under another capability and proposed again stands twice, live and reading back alike |
| `RuleReadings.SharedDigestReadsApart` | adminos/domain/rulebook_store.py:168-175 | A rule amended to the draft of another live rule shares its digest and reads back apart from it |
| `RuleReadings.UngrantedRuleInForce` | adminos/domain/rulebook_store.py:159-178 | A rule amended under a capability that may file mail, then tested, confirmed and activated, reads back as filing mail for its own, which may not |
| `RuleRows.RuleTable.ProposeRule` | adminos/domain/rulebook_store.py:84-137 | Proposing in place adds the rule with its first version and event, or changes nothing |
| `RuleRows.RuleTable.AmendRule` | adminos/domain/rulebook_store.py:140-199 | Amending in place writes the next version, leaves the capability, resets the standing and records it, or changes nothing |
| `RuleRows.RuleTable.MoveRule` | adminos/domain/rulebook_store.py:202-247 | Moving in place sets status and dates and records the move, or changes nothing |
| `RuleRows.RuleTable.PreviewRule` | adminos/domain/rule_testing.py:411-467 | Previewing moves a proposed rule to tested and leaves any other alone |
| `Conditions.BreadthIsSound` | adminos/domain/conditions.py:411-427 | For every condition tree, one that passes the breadth check matches an item only where a narrowing condition in a positive position does, and so never an item whose subject, preview, addresses and domains are absent or empty |
| `Conditions.MatchingIsNarrow` | adminos/domain/conditions.py:328-365 | A tree that narrows and matches has a narrowing condition in a positive position that matched |
| `Conditions.NarrowsExactlyWhen` | adminos/domain/conditions.py:328-331 | A tree narrows exactly when it cannot be satisfied by conditions that do not narrow |
| `Conditions.LeafNarrowsExactlyWhen` | adminos/domain/conditions.py:255-263 | A condition narrows exactly when it is on what was said or by whom, is not said in the negative, and has four fixed characters, a pattern not finding the empty string |
| `Conditions.NarrowLeafRejectsEmpty` | adminos/domain/conditions.py:255-263 | A condition that narrows does not match the empty string |
| `Conditions.BlankHasNoHit` | adminos/domain/conditions.py:255-303 | On an item with nothing to read no narrowing condition in a positive position holds |
| `Conditions.TestTree` | adminos/domain/conditions.py:333-365 | Evaluating a tree as it runs gives the match and the outcomes of the specification |
| `Conditions.TestEach` | adminos/domain/conditions.py:337-360 | The loops over a branch say whether all, any and none matched, with every outcome |
| `Conditions.LeafMatchesExactlyWhen` | adminos/domain/conditions.py:265-303 | A condition holds exactly when the number compares, the one value is there and compares, some value of the list does, or, of a negative one, every value does |
| `Conditions.LeafCapturesExactlyWhen` | adminos/domain/conditions.py:265-303 | A condition captures exactly the named groups, not empty, of its pattern in the value it matched |
| `Conditions.CompareExactlyWhen` | adminos/domain/conditions.py:464-481 | Each operator says what it means of the folded words: the same, not the same, at the beginning, at the end, within, not within, or found by the pattern |
| `Conditions.NumbersExactlyWhen` | adminos/domain/conditions.py:294-303 | At least and at most are the two sides of a number, equal where both hold, and no other operator compares numbers |
| `Conditions.MergedTakesLast` | adminos/domain/conditions.py:361-365 | A name captured by several conditions has the value the last of them gave it |
| `Conditions.DepthIsDeepest` | adminos/domain/conditions.py:484-488 | The depth counted is that of the deepest test |
| `Conditions.AcceptedIsShallow` | adminos/domain/conditions.py:317-326 | An accepted group has something in it and nothing four levels below it |
| `Conditions.CapturesAreOffered` | adminos/domain/conditions.py:361-365 | What a match captures is among the names the tree is read to offer |
| `Conditions.OfferedExactlyWhen` | adminos/domain/rulebook.py:485-493 | A name is offered exactly when the words of some condition in the tree, excluded or not, read as naming it |
| `Wording.CapturedExactlyWhen` | adminos/domain/conditions.py:333-365 | A name is filled in for an item exactly when some condition of the tree held of the item and captured it, whatever else was merged over it |
| `Wording.SureIsCaptured` | adminos/domain/rulebook.py:440-493 | For every tree: where patterns that match capture their names, a name that a pattern which must hold has, or every alternative has, is captured by every match |
| `Wording.AlwaysCapturedExactlyWhen` | adminos/domain/rulebook.py:440-493 | Where for some item, and some patterns taken not to match, the other conditions leave it to the patterns whether the tree matches, a name is captured in every match of every item, however the patterns come to match, exactly when the tree is sure of it in that sense |
| `Wording.SureIsOffered` | adminos/domain/rulebook.py:440-493 | What the check asks, that the name is read somewhere in the tree, is necessary for that |
| `Wording.NeverCaptured` | adminos/domain/rulebook.py:440-493 | A name offered only by conditions that are no patterns, or by patterns excluded outright, is captured by no match, though the check accepts it |
| `Wording.NotAPatternNeverCaptures` | adminos/domain/rulebook.py:485-493 | A name read off words that are compared, not matched, passes the check and is never captured |
| `Wording.ExcludedPatternNeverCaptures` | adminos/domain/rulebook.py:488-492 | A name of a pattern the item must not match passes the check and is not captured by a match |
| `Wording.OfferedMayNotBeCaptured` | adminos/domain/rulebook.py:485-493 | A name of one alternative passes the check and is not captured where the other alternative matched |
| `Wording.OptionalNameMayNotBeCaptured` | adminos/domain/conditions.py:464-470 | A name that is optional in its pattern passes the check and may be empty, and so not captured, in a match |
| `Patterns.AcceptsExactlyVariants` | adminos/domain/patterns.py:135-153 | The generated pattern accepts exactly the strings with the same fixed words between their runs of digits, and can capture only those runs |
| `Patterns.SearchExactlyWhen` | adminos/domain/patterns.py:135-153 | A search for the pattern finds those strings, its own subject among them, and the same strings with one closing newline, which the end anchor lets by |
| `Patterns.PatternIsNarrowest` | adminos/domain/patterns.py:156-169 | Everything the pattern finds is also caught by the starts-with and contains readings under per-character case folding |
| `Patterns.WiderReadingsCatchVariants` | adminos/domain/patterns.py:156-169 | Every string with the same fixed words begins with the fixed opening and contains the longest fixed phrase, case aside |
| `PatternReadings.OpeningExactlyWhen` | adminos/domain/patterns.py:156-162 | There is an opening exactly when there is a number and four characters or more before the first one, and it is those, trimmed |
| `PatternReadings.PhraseExactlyWhen` | adminos/domain/patterns.py:165-169 | There is a phrase exactly when some stretch between numbers has four characters or more, and it is the first of the longest |
| `PatternReadings.SuggestsExactly` | adminos/domain/patterns.py:59-132 | What is suggested is exactly the subject, its pattern where there are numbers and it narrows, and the opening and phrase there are |
| `PatternReadings.PatternTextReads` | adminos/domain/patterns.py:141-153 | The text of a pattern, read token by token between its anchors with escapes undone, is the words and numbered captures it was made of, wherever backslash and bracket are escaped |
| `PatternReadings.CaptureNamesDiffer` | adminos/domain/patterns.py:141-153 | No two captures of a pattern share a name |
| `Patterns.GeneratePattern` | adminos/domain/patterns.py:135-153 | The loop over runs leaves the pieces of the specification, or nothing where there are no numbers |
| `Patterns.SuggestionsByBreadth` | adminos/domain/patterns.py:72-132 | Sorting the readings keeps them all, no two equally broad, the exact subject first |
| `Patterns.ExactComesFirst` | adminos/domain/patterns.py:59-132 | Whatever the subject, the first reading offered is the exact subject, also where there are numbers to take out |
| `Patterns.ManyNumbersOverflow` | adminos/domain/patterns.py:141-153 | Thirty numbers always make the pattern too long, so where it narrows the subject is refused |
| `Patterns.RefusedExactlyWhen` | adminos/domain/patterns.py:59-91 | For every subject, suggesting raises exactly when there is nothing to read, or there are numbers, the pattern narrows, and two anchors, the escaped words and the named captures come to more than 500 characters |
| `Patterns.PatternLength` | adminos/domain/patterns.py:141-153 | The pattern is exactly as long as its anchors, its escaped words and its captures with their names |
| `Patterns.RefusedWithinTheLimit` | adminos/domain/patterns.py:38-74 | A subject of 300 characters, which is the limit, is refused where its pattern narrows |
| `Submissions.CheckSubmission` | adminos/domain/guided_review.py:548-647 | Each fault is reported exactly when the submission has it, and none exactly when it may be recorded: the review, phase, version and scope agree, every item is in a known group with every required field stated, thread ids are distinct and as many as claimed, and a required order is a permutation of them |
| `Submissions.CheckItems` | adminos/domain/guided_review.py:650-682 | Each unknown group and each missing field is reported at its item, and nothing else |
| `Submissions.StatedExactlyWhen` | adminos/domain/guided_review.py:685-695 | A field is stated exactly when it is there and, if text, is not only space |
| `Submissions.CheckCounts` | adminos/domain/guided_review.py:698-728 | Each repeated thread is reported at its place, and a count that differs from the distinct threads |
| `Submissions.CheckOrder` | adminos/domain/guided_review.py:731-774 | Unknown and repeated entries are reported at their places and incompleteness exactly when a thread is left out; with distinct threads, nothing exactly when the order is a rearrangement of them |
| `Submissions.PositionsNumberTheItems` | adminos/domain/guided_review.py:475-484 | The positions stored with an accepted review are a bijection between its items and 1 to n |
| `Submissions.CountsByGroup` | adminos/domain/guided_review.py:777-786 | The counts come in the order of the playbook's groups, each the number of items in that group; groups with none appear only when they are to be shown |
| `Submissions.CountsInGroupOrder` | adminos/domain/guided_review.py:777-786 | Of an accepted review the keys counted are exactly the groups sorted by their order |
| `Submissions.CountsAddUp` | adminos/domain/guided_review.py:777-786 | Over distinct groups the counts of an accepted review sum to its items |
| `GuidedReview.RunIsSound` | adminos/domain/guided_review.py:263-918 | In every reachable store only the latest review may be open and each names the one it set aside; a phase has at most one snapshot in force, exactly when recorded or completed, whose items are as many as it says and as the pinned playbook demands; in progress, partly complete and completed mean what they say of the phases; events are numbered 1 to n |
| `GuidedReview.RunFollows` | adminos/domain/guided_review.py:263-918 | Over every run a review keeps its pinned revision, its phase keys and its unavailable phases; completed phases and history never change |
| `GuidedReview.CompletionProgresses` | adminos/domain/guided_review.py:837-918 | A completion leaves exactly one unfinished phase fewer, and the review is in progress exactly while one is left |
| `GuidedReview.NextOperationIsNeverRefused` | adminos/domain/guided_review.py:976-986 | A review has a next operation exactly while in progress, and completing the current phase when told to is never refused |
| `GuidedReview.StartIsSound` | adminos/domain/guided_review.py:263-356 | Starting a review keeps every store invariant: it is the one open, and names the one it set aside |
| `GuidedReview.RecordIsGood` | adminos/domain/guided_review.py:410-545 | Recording, or refusing to, keeps every review invariant |
| `GuidedReview.CompleteIsGood` | adminos/domain/guided_review.py:837-918 | Completing a phase keeps every review invariant |
| `GuidedOutcomes.RecordStores` | adminos/domain/guided_review.py:458-545 | An acceptable submission is the one snapshot put in force, its items those submitted in turn, each at the place its thread has in the recommended order and at none where it is not in it; what was in force for the phase is set aside, the phase is recorded, two events are added, and nothing else changes |
| `GuidedOutcomes.RefusalStores` | adminos/domain/guided_review.py:434-456 | A submission with a fault leaves the store as it was but for the event that says so |
| `GuidedOutcomes.CompleteStores` | adminos/domain/guided_review.py:837-918 | A phase is completed exactly when it is recorded in a review in progress; the first phase left is then the current one, or with none left the review is completed, or partly so where a phase is unavailable; otherwise nothing changes |
| `GuidedOutcomes.StartStores` | adminos/domain/guided_review.py:263-387 | A workable playbook sets aside every open review, with its event, and adds one of that document on its first implemented phase by order, the only one begun; an unworkable one changes nothing |
| `GuidedReviewRows.ReviewTable.SetAsideOpenReviews` | adminos/domain/guided_review.py:359-387 | The loop closes every open review with its event and returns the last |
| `GuidedReviewRows.ReviewTable.StartReview` | adminos/domain/guided_review.py:263-356 | Starting in place adds the one new review, or nothing when the playbook cannot be worked |
| `GuidedReviewRows.ReviewTable.RecordEmailReview` | adminos/domain/guided_review.py:410-545 | Recording in place leaves the store RecordStores and RefusalStores tell: recorded whole and in the order recommended, or refused with only the refusal added to the history; what it returns lists exactly the faults, none exactly when it was recorded |
| `GuidedReviewRows.ReviewTable.CompletePhase` | adminos/domain/guided_review.py:837-918 | Completing in place leaves the specification's store, or nothing changed |
| `ReviewPlaybook.ValidateReviewPlaybook` | adminos/domain/review_playbook.py:261-344 | No error is reported exactly when the document can be worked: schema, distinct known phases and orders, an email phase, implemented phases with a source and groups, the others with neither |
| `ReviewPlaybook.CheckImplementedPhase` | adminos/domain/review_playbook.py:347-407 | An implemented phase is faulted exactly when it lacks a source, groups, distinct keys and orders, or the one catch-all it needs |
| `ReviewPlaybook.CheckUnique` | adminos/domain/review_playbook.py:410-427 | The seen-set loop reports nothing exactly when all keys differ |
| `ReviewDecisions.ActionExactlyWhen` | adminos/domain/review.py:989-1111 | An action is authorised exactly when the caller approved a recommendation of it or named it in an override, the row may still be decided, and configuration grants it, carries it out, has its objective and files there |
| `ReviewDecisions.OfferedExactlyWhen` | adminos/domain/review.py:989-1111 | With no folder given an action is taken exactly as the grants, the row and the objective allow, and a move wherever there is some folder to offer |
| `ReviewDecisions.SettlesExactlyWhen` | adminos/domain/review.py:989-1028 | A row may be put off or dismissed exactly while decisions are taken and it is neither dismissed nor done |
| `ReviewDecisions.FilesExactlyWhen` | adminos/domain/review.py:1050-1070 | A filing is accepted exactly when the folder named, trimmed, is one of the group's |
| `ReviewDecisions.DecisionLeaves` | adminos/domain/review.py:917-975 | What each decision leaves of a row: approved with the action recommended or named and the filing given, shown or none, or put off or dismissed with neither |
| `ReviewDecisions.DecisionIsNoted` | adminos/domain/review.py:917-975 | Its record says the decision, actor, batch and action, and followed exactly when it took what was recommended |
| `ReviewDecisions.ApprovingTakesWhatWasShown` | adminos/domain/review.py:978-986 | An approval that names nothing takes the recommended action with its recommended folder and counts as following it |
| `ReviewDecisions.LastDecisionStands` | adminos/domain/review.py:1003-1011 | A row decided but not dismissed may be put off or dismissed again, and ends as if only that had been decided |
| `ReviewDecisions.RunIsExplained` | adminos/domain/review.py:917-975 | Over every run of decisions, withdrawals, rule approvals and settled actions, a row is undecided exactly while nothing is recorded, and its last record explains its state and action |
| `ReviewDecisions.DismissedStays` | adminos/domain/review.py:1006-1007 | No decision reopens a dismissed row |
| `ReviewDecisionRows.DecideGroup` | adminos/domain/review.py:1114-1184 | All or nothing: with any picked row refused nothing changes and exactly the refused rows are named; otherwise every picked row ends as its decision implies, each noted in the order of the group, and no other row changes |
| `ReviewDecisionRows.RecordAll` | adminos/domain/review.py:1170-1184 | Once every picked row passes, no decision in the second loop is refused |
| `ReviewDecisionRows.RecordDecision` | adminos/domain/review.py:917-975 | One decision changes its row and adds its record as specified, or changes nothing |
| `ReviewDecisionRows.FindIneligible` | adminos/domain/review.py:1146-1166 | The first loop names exactly the rows that refuse |
| `ReviewDecisionRows.Select` | adminos/domain/review.py:1135-1144 | The rows picked are the named ones, or with none named the undecided ones, each once and in the order of the group |
| `ReviewDecisionRows.ChosenExactlyWhen` | adminos/domain/review.py:1135-1144 | A row is picked exactly when it is named, or, with none named, when nothing has been recorded of it |
| `ReviewStates.RefreshIsIdempotent` | adminos/domain/review.py:1187-1266 | Recomputing a review again at any moment changes nothing |
| `ReviewStates.AbandonedIsLeft` | adminos/domain/review.py:1209-1219 | An abandoned review is left as it was, but for being given a plan if it never had one |
| `ReviewStates.CompletedExactlyWhen` | adminos/domain/review.py:1247-1263 | Under the default rules a review is completed exactly when it has a planned group and no planned row is pending, approved or failed |
| `ReviewStates.StatesExactlyWhen` | adminos/domain/review.py:1247-1263 | Under the default rules the four states are told apart by the planned rows: none open, all decided with some not done, some decided and some not, or none decided |
| `ReviewStates.GroupCompletesExactlyWhen` | adminos/domain/review.py:1285-1296 | Under the default rules a group is completed exactly when no row is pending, approved or failed |
| `ReviewStates.GroupStateExactlyWhen` | adminos/domain/review.py:1285-1296 | Whatever the completion rules, a group is pending while all of it is undecided and must be decided, in progress while some is, awaiting actions while what is decided must be carried out and is not, and completed otherwise |
| `ReviewStates.GroupTimes` | adminos/domain/review.py:1221-1239 | A group is dated begun the first time it is not pending and completed when it is, the date going if it no longer is |
| `ReviewStates.CurrentExactlyWhen` | adminos/domain/review.py:240-261 | A begun review is on no group exactly when every planned group is completed, and otherwise on the first planned one that is not |
| `ReviewStates.RefreshedReviewIsOn` | adminos/domain/review.py:1240-1266 | A completed review is begun and on no group; one not completed, once begun and with a planned group, is on one |
| `ReviewStates.PlannedInAgreedOrder` | adminos/domain/review.py:219-234 | Planned groups come in the agreed order, those it does not place after them as they were stored |
| `ReviewStates.PlannedAreKept` | adminos/domain/review.py:219-234 | Planned groups are exactly the groups not skipped, each as often as stored |
| `ReviewStates.PlanPositionStands` | adminos/domain/review.py:219-234 | A group the plan names stands where it is last named, and one it does not after all it names |
| `ReviewStateRows.ReviewRun.RefreshStates` | adminos/domain/review.py:1187-1266 | Refreshing in place leaves the review and its groups as the specification says |
| `ReviewStateRows.ReviewRun.RefreshEach` | adminos/domain/review.py:1221-1239 | The loop leaves each group with the state and times its rows give it |
| `ReviewRevisions.RunIsLadder` | adminos/domain/review.py:277-313 | Over every run each day, channel and scope has revisions 1 to n, exactly n not abandoned, each superseding the one before |
| `ReviewRevisions.OpenIsLadder` | adminos/domain/review.py:277-313 | A fresh review is the next revision, becomes the current one, and leaves other days and scopes alone |
| `ReviewRevisions.CurrentIsLast` | adminos/domain/review.py:394-411 | The review found as current is the last one opened for its key |
| `ReviewRevisions.ReviewTable.OpenFreshReview` | adminos/domain/review.py:277-313 | Opening in place abandons the current review and adds the next |
| `Standing.NeverUnderReports` | adminos/domain/plan.py:285-315 | What is outstanding is at least the approved and failed rows, and equal exactly when no row has two attempted actions and none is attempted for another row |
| `Standing.StandingCounts` | adminos/domain/plan.py:285-315 | The three counts are: rows approved or failed that no prepared or tried action is for, actions prepared and not tried, and actions tried and not completed |
| `Standing.TwoActionsCountTwice` | adminos/domain/plan.py:210-228 | The three counts can overlap: one row with two prepared actions is counted twice |
| `Standing.StandingsAddUp` | adminos/domain/plan.py:285-315 | Groups' standings sum to the review's when no action is for another group's row |
| `ReviewPlans.ArrangeIsPermutation` | adminos/domain/plan.py:170-182 | Naming groups brings them to the front once each in the order named, drops none and keeps the rest in configured order; it is refused exactly when one is unknown |
| `ReviewPlans.BegunPlanWorks` | adminos/domain/plan.py:124-167 | An agreed plan is active, orders every configured group, leaves at least one to work, and sets aside exactly the groups not in only where it is given, and otherwise those in skip |
| `ReviewPlans.BegunExactlyWhen` | adminos/domain/plan.py:124-205 | A plan is agreed exactly when order and only, or skip where only is not given, name configured groups and some configured group is left to work |
| `ReviewPlans.BeginAgainChangesNothing` | adminos/domain/plan.py:124-167 | Agreeing to the same plan again changes nothing, its version included |
| `ReviewPlans.VersionCountsChanges` | adminos/domain/plan.py:124-167 | A plan's version goes up by one exactly when its order or what it sets aside is new, and who began it and when is noted when it was not active |
| `ReviewPlans.ReviewPlan.BeginPlan` | adminos/domain/plan.py:124-167 | Beginning in place leaves the plan the specification gives, or unchanged when refused |
| `Presentation.SortedByAllRules` | adminos/domain/presentation.py:238-247 | The stable passes, last rule first and some reversed, order rows by the rule list, the first rule most significant, and rows no rule tells apart in the order they came |
| `Presentation.SortedElements` | adminos/domain/presentation.py:238-247 | Sorting keeps exactly the rows there were |
| `Presentation.OnlyOneOrder` | adminos/domain/presentation.py:238-247 | That is the only arrangement of the rows in that order |
| `Presentation.MissingComesLast` | adminos/domain/presentation.py:250-272 | Rows with nothing to sort on come after those with something in either direction |
| `Presentation.AllowsExactlyWhen` | adminos/domain/presentation.py:250-272 | A rule lets one row stand before another exactly when its column says so, the other way round when it descends, a row with nothing there after any with something in either direction |
| `Presentation.SortItems` | adminos/domain/presentation.py:238-247 | The loop over the rules in reverse leaves the sorted rows |
| `Schema.FollowingShrinks` | adminos/api/schema.py:102-109 | Following a reference leaves strictly fewer that could still be followed, which is why resolving ends on every document, cyclic ones included |
| `Schema.WhatIsLeft` | adminos/api/schema.py:91-111 | Every reference left names nothing, comes back to itself, or is text that a reference led to |
| `Schema.LeavesOnlyUnfollowableExactlyWhen` | adminos/api/schema.py:91-111 | Inlining bodies made of a document's own references leaves only references that name nothing or come back to themselves exactly when none of those references leads to text that is a reference to anything else |
| `Schema.BodyRefs` | adminos/api/schema.py:58-86 | The bodies fingerprinted are such bodies |
| `Schema.TextCanBecomeAReference` | adminos/api/schema.py:102-111 | The last case is real: a document's own request body can keep a reference that names something and does not come back to itself |
| `Schema.RewordingKeepsShape` | adminos/api/schema.py:91-136 | Where no reference passes through a prose key, documents that differ only under such keys inline to the same stripped shape |
| `SchemaReadings.InlinedReadsAsReached` | adminos/api/schema.py:91-111 | Along every path of keys and places, the inlined body has what following the path into the document reaches, jumping to the component at each reference not met before and stopping at one that names nothing or comes back: the same scalar, the same keys, the same length |
| `SchemaReadings.SameShapeExactlyWhen` | adminos/api/schema.py:91-136 | Two bodies in their documents have the same shape exactly when such walks show the same along every path through no prose key, so a change in a component that is reached is always seen |
| `SchemaReadings.OperationChangesExactlyWhen` | adminos/api/schema.py:58-88 | The shape recorded for an operation is the same before and after a change of the document exactly when those walks from its body show the same |
| `SchemaReadings.SharedNameExactlyWhen` | adminos/api/schema.py:77-86 | Two operations are recorded under one name exactly when their paths are the same and their methods differ in case alone, a method having no space in it |
| `Schema.RewordedContract` | adminos/api/schema.py:58-88 | A contract reworded keeps every operation's body and shape |
| `Schema.StripsAlikeExactlyWhen` | adminos/api/schema.py:126-136 | Stripped shapes agree exactly when the shapes differ under prose keys alone |
| `Schema.PropertyNamedSummaryIsUnseen` | adminos/api/schema.py:126-136 | A request that gains a property called summary keeps its stripped shape |
| `Schema.LookUp` | adminos/api/schema.py:114-123 | The loop over the steps finds what the specification follows |
| `Schema.LookupIsEvaluation` | adminos/api/schema.py:114-123 | A local reference without an escape names exactly what section 4 of RFC 6901 evaluates its pointer to by way of objects; otherwise it names nothing |
| `Schema.LookupIsSubsetExactlyWhen` | adminos/api/schema.py:114-123 | What a local reference finds is what section 4 of RFC 6901 evaluates its pointer to, in every document, exactly when no step of it holds an escape |
| `Schema.StandsForItselfExactlyWhen` | adminos/api/schema.py:114-123 | A step is what section 4 of RFC 6901 reads it as exactly when it holds neither escape |
| `Schema.EscapedKeyIsFound` | adminos/api/schema.py:114-123 | A key spelled with an escape is found literally, where the pointer evaluates to nothing |
| `Schema.ComponentRefs` | adminos/api/schema.py:114-123 | A component names only references the document names |
| `Schema.RequestShapes` | adminos/api/schema.py:71-86 | Exactly the operations with a body have a shape recorded under their name, the shape whose every path SameShapeExactlyWhen ties to the document; where names coincide, that of the last operation in sorted order |

## Left out

- The web layer, MCP transport, keys, logging and settings: no state of their own.
- The Gmail and Monday HTTP clients: the mailbox is a value whose calls may fail; labels beyond those
  the actions add and remove, and Gmail's own moves between spam and sent, are not modelled.
- ActionSafety.OneEffectPerThread: assumes no other writer on the thread or on the label catalogue during the run; without verification completion says nothing of the mailbox, because the code then asks nothing of it.
- ActionDrafts.AtMostOneDraft: assumes that drafts are not removed and that a listing finds a thread's draft, because otherwise each attempt writes one.
- ActionEffects.DraftDoes: what a draft says is not kept in the mailbox; that its recipients, subject and body are those asked for is stated of its plan (`PreparedExactlyWhen`).
- ActionEffects.ExecuteDoes: speaks of calls that all work on a thread and labels Gmail has; what calls that fail can leave is `OneEffectPerThread`.
- Executing Monday actions, tasks and workflow runs: no executor of theirs is in scope.
- Which actor approved an action (`read_approval`), `authorise_send`, and open confirmation scopes: they rest on modules that are not part of this model.
- Reading parameters from JSON (`read_strings`, `read_text`): parameters arrive read, so a value of the wrong type is not modelled.
- Evidence.SyncedRowsAreCurrent: one sync sees one state of the mailbox; label changes during a sync, and a listing that fails part way, are not modelled.
- Evidence.RecordedExactlyUnder: capability keys are taken to be distinct, as reading the configuration requires.
- Evidence from sources other than Gmail, and the texts of sync warnings; the content hash stands for the fields it covers.
- EvidenceStore.Table.RecheckStaleThreads: visits stored threads in any order, so which are left out when the limit is reached is not fixed, as the query fixes none.
- Playbook warnings, labels of steps, session rules and reading documents from YAML; the model keeps the fields that decide control flow.
- The store of review playbook revisions: a review is given the document it pins.
- The `observed` rule status, constraints, examples and the wording of effects: no request leads to that status and the rest is prose.
- Learning events, candidate rules and title similarity.
- Digests are taken to be injective functions of what they hash.
- Conditions.BreadthIsSound: Python's regular expressions are a search predicate and a count of fixed characters; case folding works character by character and folds none away; a pattern that narrows does not find the empty string because the code asks exactly that.
- Wording.AlwaysCapturedExactlyWhen: speaks of trees that some item can match where each expression matches every text or none; of the others, as where two conditions exclude each other or one expression must match one field and not another, only `SureIsCaptured` and `NeverCaptured` speak.
- ActionOutcomes.CompletedSendWentOutExactlyWhen: takes the draft named to be one Gmail has or had, as ids are not made up.
- Patterns.AcceptsExactlyVariants: stated for the small language of fixed text and digit runs the generator writes, under any reading of what a digit is; escaping is taken to make text stand for itself.
- Collapsing the spaces of a subject, and Unicode spaces: the subject arrives collapsed and six space characters are known.
- ReviewDecisions.RunIsExplained: an action may settle a row only if some recorded decision gave it one; which decision the action came from is not tracked.
- Filling a review with mail, withdrawing rows and evaluating policy (`populate_group`, `evaluate_policy`): their effect on one row is a step of its life, but which rows they pick is not modelled.
- Warnings about an accepted review (`observations`), and the refusal of `start_review` to resume.
- ReviewDecisionRows.RecordDecision: a review is taken to have its plan, so a person's decision always begins one not begun; notes are not kept.
- Messages of refusals: a refusal is its code and the place it is about; an absent list of uncertainties is not told apart from an empty one once stored.
- Presentation.SortItems: received times are integers with no time zone, and confidence is a real number.
- Which rows a screen shows, and everything rendered from them.
- Schema.LookupIsEvaluation: section 6 of RFC 6901, where a pointer is a URI fragment, is not modelled; neither side decodes percent signs.
- Concurrent transactions on one table.
