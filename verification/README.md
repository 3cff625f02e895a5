# Proofs about the tatara operator

A Dafny model of the operator's hardest logic: the optimistic-concurrency loop of the
deploy ledger, the bounded sequence that stops an agent pod, the approval gate and the
ship gate over time, the token-budget windows, the deploying stage with its pin scanner,
the rewriting of close directives, and the clamps and fingerprints these rest on.
`dafny verify dfyconfig.toml` checks everything.

Each module follows one component. Code that changes state step by step is written as a
method or a class whose `ensures` equates the new state with a specification function or
states the promise outright; code made of expressions is written as functions. The main
results are lemmas about those functions, over every input, every interleaving or every
run. Whatever comes from outside (the API server, the forge, the agent, other writers) is
an arbitrary answer, and an arbitrarily old one where the client may read a cache.

| module | component |
|---|---|
| `DeployLedger`, `LedgerCas`, `LedgerReplica` | deploy ledger: its entries, the compare-and-swap protocol as a state machine, and the retry loop that refines it |
| `PodStop`, `NoteJournal`, `NoteText` | pod stop: the sequence, how a note lands in the journal, and the byte arithmetic of the notes |
| `Quotes`, `Logins`, `ApprovalGate`, `ShipGate`, `GateRuns` | approval: the quote check, who is a maintainer, the grant, the ship verdict, and runs of both |
| `TokenWindows`, `Subscription` | token budget: the cron window accumulator and the two-window decision |
| `Pins`, `DeployStage`, `DeployRuns` | deploying: the pin scanner, one pass of the stage, and whole runs of passes |
| `CloseDirective`, `CloseReadings`, `CloseTwice` | close directives: the rewriting, how a forge reads the result, and what a second pass makes of it |
| `Utf8`, `Text`, `Titles` | byte and rune clamps |
| `CIDecline` | decline evidence and its fingerprint |

## Where the code and its documentation part

Each of these is a lemma with a concrete input or an exact condition; the model follows the code.

- The journal of a stopped pod is promised never to be empty. The operator's last append leaves notes
  exactly when its second read, with what it adds, holds more than the first read decided to drop
  (`LandingLeavesNotesIff`, part of what `StopWithHandoff` ensures): another writer can make it drop its
  own note, whatever the sizes (`RaceDropsNote`), and so can a Task with no room for any
  (`JournalMayEmpty`). Undisturbed, and with room for the note alone, the promise holds
  (`UndisturbedStopLeavesNotes`).
- The wait for the agent's handoff compares counts. In a journal at its cap of fifty notes, an
  append that drops an older handoff leaves the count as it was, so the handoff is not seen
  (`HandoffSeenIff`, `FullJournalHidesHandoff`).
- The window search is documented over a closed interval of two windows. Its first instant is
  excluded: a fire exactly two windows old is missed (`SearchFindsIffRecent`, `TwoWindowsOldMissed`).
- The failed-repository list may be cut although it would just have fitted (`AllPrintedIff`; at the
  operator's own budget, `FittingListCut`).
- Closing every Issue of a Task that carries evidence while a late one is live wedges the Task
  (`OpenPathClearIff`, `ClosedScopeWedges`, `ClosingAddsBlockerIff`).
- A body filtered to allowed references can still close a disallowed one: read as a list
  (`ListKeepsDisallowed`), or behind a stacked keyword (`StackedKeywordSurvives`). `OneKeywordSafeIff`
  and `ListSafeIff` say exactly when it is safe.
- The filter is documented to strip every directive with a disallowed reference. Its own result can hold
  new ones, so that filtering twice differs from filtering once: the keyword of a disallowed directive
  goes away, and what is left falls to a keyword before it (`StackedKeywordSurvives`) or joins the list of
  an allowed directive, which a second pass then rewrites (`JoinedGrows`). `SecondPassIff` gives the exact
  condition on the body, and `UnchangedIff` says which bodies a pass leaves alone.
- `deployedAt` is written once, but the version beside it is overwritten when a later pass works from
  a list that misses the stamp (`StaleListOverwritesVersion`). `VersionStaysIff` says exactly when it
  stays over a run, and `FreshPassKeepsVersion` that an up-to-date list never overwrites it.

Three conditions are there to be exact and exclude no input the forges produce: the decline fingerprint
identifies the merge requests while no name holds an `@` and no head a comma (`FingerprintIdentifies`;
`MarksCollide` and `NameMarkCollides` are hypothetical inputs without them); the carve-out's work can
ship exactly when the Project's ceiling is a ranked one (`AutoGrantCanShipIff`), which the enumeration of
that field sees to; and at-or-past survives every forward move of the pins exactly for a tag that is a
version, or empty (`KeptForwardIff`; `LiteralStepsBack` for all others, which are matched literally, as
documented), and every tag the forge's reader answers with is a version (`ForgeTagKept`).

## Model

| member | source | states |
|---|---|---|
| `LedgerCas.MutateLinearizable` | internal/controller/deploy_ledger.go:88-138 | for any number of calls, any interleaving and any stale read, the stored entries are the committed functions folded in commit order; a call that returned nil committed exactly once, any other committed nothing |
| `LedgerCas.EveryVersionIsPrefix` | internal/controller/deploy_ledger.go:169-183 | whatever version a reader is given is the fold of a prefix of the commits |
| `LedgerCas.MutateTerminates` | internal/controller/deploy_ledger.go:23-28 | however the server answers, N calls take at most 60 steps each between them |
| `LedgerCas.BurstSurfacesNoConflict` | internal/controller/deploy_ledger.go:18-28 | with fresh reads and at most thirty contending calls nobody gives up on a Conflict |
| `LedgerCas.EveryVersionOnePerTask` | internal/controller/deploy_ledger.go:143-166 | whatever Add and SetState calls race, every version anyone can read has one entry per Task |
| `LedgerCas.FoldOnePerTask` | internal/controller/deploy_ledger.go:143-166 | folding any order of Add and SetState keeps one entry per Task |
| `LedgerReplica.Cluster.Mutate` | internal/controller/deploy_ledger.go:88-138 | the retry loop is a run of the protocol, other replicas moving between its steps, and returns nil exactly when its own last write was accepted |
| `LedgerReplica.Cluster.Attempt` | internal/controller/deploy_ledger.go:89-137 | one try reads, decodes, applies, encodes and writes; it commits, fails, or counts one more conflict, as the protocol says |
| `LedgerReplica.Cluster.Put` | internal/controller/deploy_ledger.go:108-136 | create when nothing was read, update by version otherwise; a lost race of either kind is a Conflict |
| `LedgerReplica.Cluster.Read` | internal/controller/deploy_ledger.go:91-99 | a read answers with some version the cell held, which stays what it was whatever others do next |
| `DeployLedger.AddEntry` | internal/controller/deploy_ledger.go:143-153 | the loop overwrites the first entry of the same Task in place and grows the slice only when there is none |
| `DeployLedger.SetStateEntry` | internal/controller/deploy_ledger.go:156-166 | the loop changes the state of the first entry of the Task and nothing else |
| `DeployLedger.UpsertKeepsOthers` | internal/controller/deploy_ledger.go:143-153 | Add keeps one entry per Task, every other Task's entry and the order of the Tasks |
| `DeployLedger.RestateKeepsOthers` | internal/controller/deploy_ledger.go:156-166 | SetState touches one field of one Task's entry |
| `DeployLedger.MatchEntries` | internal/controller/deploy_ledger.go:188-196 | returns exactly the entries at the artifact and version, in ledger order, each Task at most once |
| `PodStop.Stopper.StopWithHandoff` | internal/agent/ttlstop.go:459-513 | for every behaviour of wrapper, cluster and other writers of the journal: it ends by its start or the hard cap; offers at most one handoff turn, right after a read that found neither a turn nor a dead wrapper and before the cap; an error-free end reports the agent exactly when its count was seen to rise, off a journal of this stop that had notes, otherwise the operator's own note, lost exactly when there was nothing to hand off; the operator's last append leaves notes exactly when its second read held more than the first decided to drop, once others leave the journal be; force-deleted exactly when the graceful stop failed on a pod not read as gone |
| `PodStop.Stopper.CaptureHandoff` | internal/agent/ttlstop.go:478-512 | the capture dimension of the same, before the pod is stopped |
| `PodStop.Stopper.StopPresent` | internal/agent/ttlstop.go:476-513 | the sequence on a pod that was still there |
| `PodStop.Stopper.OfferHandoff` | internal/agent/ttlstop.go:483-500 | steps 2 and 3: at most one offer, captured exactly when a later count exceeded the first |
| `PodStop.Stopper.WaitIdle` | internal/agent/ttlstop.go:586-607 | leads on only from a read that found the wrapper ready, at that very instant, and never sleeps past its deadline |
| `PodStop.Stopper.WaitHandoffNote` | internal/agent/ttlstop.go:611-624 | answers yes exactly when a count read by the deadline exceeds the one before |
| `PodStop.Stopper.HandoffNoteCount` | internal/agent/ttlstop.go:626-638 | counts the agent handoffs in the journal as read |
| `PodStop.Stopper.Finish` | internal/agent/ttlstop.go:528-544 | decides how the pod was stopped and passes the handoff through untouched |
| `PodStop.Stopper.WriteSyntheticNote` | internal/agent/ttlstop.go:690-768 | appends the operator's note as appends land, and reports lost exactly when it had nothing to carry |
| `PodStop.Stopper.Append` | internal/agent/ttlstop.go:169-182 | two reads, between which others write anything, and a write of exactly what the guard makes of them; a failed append changes nothing |
| `PodStop.Stopper.Write` | internal/objbudget/objbudget.go:529-574 | the second read and the write land on what the first read decided |
| `PodStop.LandingLeavesNotesIff` | internal/agent/ttlstop.go:455-458 | the last append leaves the journal non-empty exactly when it survives |
| `PodStop.UndisturbedStopLeavesNotes` | internal/agent/ttlstop.go:455-458 | an undisturbed append of a note that fits the Task alone leaves notes, the promise as far as it goes |
| `PodStop.Stopper.NoteFailedRepos` | internal/agent/ttlstop.go:836-858 | appends at most the one failed-repository note, and none when every push succeeded |
| `PodStop.OwnNotesAreNoAgentHandoff` | internal/agent/ttlstop.go:643-645 | the operator's note never counts as an agent's handoff |
| `NoteJournal.FitTask` | internal/objbudget/objbudget.go:479-574 | the two reads with the note cap, eviction and the spill between them give the specified journal |
| `NoteJournal.EvictOldest` | internal/objbudget/objbudget.go:222-235 | drops the fewest oldest notes that make the object fit |
| `NoteJournal.AppendKeepsLongestSuffix` | internal/objbudget/objbudget.go:479-574 | an undisturbed append leaves the longest suffix of the old journal and the note that keeps both limits |
| `NoteJournal.JournalNotEmptyIff` | internal/agent/ttlstop.go:455-458 | an error-free append leaves the journal non-empty exactly when the note fits the byte budget alone, and then the note is last |
| `NoteJournal.JournalMayEmpty` | internal/agent/ttlstop.go:455-458 | a Task whose other fields leave no room ends up with an empty journal and no error |
| `NoteJournal.LandedNotEmptyIff` | internal/objbudget/objbudget.go:479-574 | for any two reads, the journal is left non-empty exactly when the second, with what is added, holds more notes than the first decided to drop |
| `NoteJournal.SurvivesOthersIff` | internal/objbudget/objbudget.go:529-574 | with writers between the two reads the new note survives exactly when the second read found as many notes as were to be dropped |
| `NoteJournal.RaceDropsNote` | internal/objbudget/objbudget.go:529-574 | for every size function, two appenders at a journal from before the cap, twice as long as it or longer: both succeed, and the second to write leaves nothing |
| `NoteJournal.OnceIsOnce` | internal/agent/ttlstop.go:169-182 | for any two reads, an addendum the second did not find is there in the end exactly when that read found as many notes as were to be dropped; then the whole append retried leaves the journal as it is, or only applies the cap |
| `NoteJournal.SuppressedAddsNothing` | internal/agent/ttlstop.go:169-182 | when the second read finds the same already said, nothing is added, whatever the first read found |
| `NoteJournal.HandoffSeenIff` | internal/agent/ttlstop.go:611-624 | for any two reads, the count rises on an agent's handoff over what the second read found exactly when the append dropped no older handoff |
| `NoteJournal.FullJournalHidesHandoff` | internal/agent/ttlstop.go:611-624 | in a journal full of handoffs the next one is not seen |
| `NoteText.SyntheticNoteFits` | internal/agent/ttlstop.go:736-768 | for every final text and repo list the note is non-empty, within 4096 bytes, ends in the whole warning, and a body of three quarters or less is whole |
| `NoteText.FailedReposNoteFits` | internal/agent/ttlstop.go:836-858 | for every list and every turn id of at most 256 bytes the note is within 4096 bytes, and empty exactly when no push failed |
| `NoteText.FailedReposNoteShape` | internal/agent/ttlstop.go:836-877 | the note is the whole warning without its leading space, then the turn |
| `NoteText.TurnsTellNotesApart` | internal/agent/ttlstop.go:860-877 | two turns, whose ids the write path clamps to 256 bytes, get different notes for the same lost repositories, whatever the names |
| `NoteText.SentenceFits` | internal/agent/ttlstop.go:927-937 | at both call sites the warning keeps to its budget, prose included |
| `NoteText.WarningReadsBack` | internal/agent/ttlstop.go:927-972 | the warning can be read back: the same warning, under any budgets, means the same number of repositories, the same complete names printed from the front, and the same number left out |
| `NoteText.SentenceAccountsForAll` | internal/agent/ttlstop.go:927-972 | of one list no other cut reads like the one printed, and the number behind the names is the total less the names |
| `NoteText.ProseSized` | internal/agent/ttlstop.go:893-937 | the fixed prose of the notes has the sizes and edges the byte arithmetic rests on |
| `NoteText.NameListFits` | internal/agent/ttlstop.go:944-972 | the list stays within its budget once the budget holds a bare report |
| `NoteText.AllPrintedIff` | internal/agent/ttlstop.go:944-972 | exactly when the whole list is printed |
| `NoteText.FittingListCut` | internal/agent/ttlstop.go:944-972 | at the budget of the operator's own note, thirty-seven names that would exactly fill it are cut |
| `NoteText.JoinWithinBudget` | internal/agent/ttlstop.go:944-972 | the growing builder yields the longest run of names for which every step kept room for the report |
| `NoteText.TruncateNoteFits` | internal/agent/ttlstop.go:1029-1038 | a truncated body is within its budget |
| `NoteText.LostNoteReadsAsLost` | internal/agent/ttlstop.go:893-898 | a note with nothing to carry is the placeholder in full |
| `Quotes.AcceptedQuoteOccurs` | internal/controller/approval_grammar.go:290-303 | what is accepted is a non-empty substring of the body, the trimmed quote or its trimmed unescaped form |
| `Quotes.EscapedQuoteAccepted` | internal/controller/approval_grammar.go:261-303 | every non-blank substring of a body is accepted as it stands and in its escaped copy |
| `Quotes.UnescapeEscape` | internal/controller/approval_grammar.go:261-289 | unescaping undoes escaping the five characters of section 4.6 of XML 1.0 |
| `Logins.WithoutBotLogin` | api/v1alpha1/logins.go:110-122 | the loop drops exactly the bot's own login |
| `Logins.MaintainerIffListedHuman` | api/v1alpha1/logins.go:24-32 | a maintainer is exactly a listed login that is neither empty nor the bot |
| `ApprovalGate.VerifyOneIssue` | internal/controller/approval_grammar.go:348-462 | the scan over the thread decides as specified, for every thread, citation list and declaration |
| `ApprovalGate.FindCited` | internal/controller/approval_grammar.go:383-413 | the nested scan finds the first cited maintainer comment in thread order and the quote of the first citation naming it |
| `ApprovalGate.FreshGrantMeans` | internal/controller/approval_grammar.go:348-462 | a fresh grant is automatic, with no maintainer comment and all axes passing, or rests on one comment that was cited, is by a listed non-bot maintainer, agrees with any declared approver, holds the recorded phrase and was not spent |
| `ApprovalGate.FirstCitedGrants` | internal/controller/approval_grammar.go:383-462 | the first cited maintainer comment is granted on exactly when it agrees with any declared approver, the quote occurs in it as it stands or unescaped, and it was not spent; the evidence names it and the form of the quote that occurs |
| `ApprovalGate.EitherQuoteGrants` | internal/controller/approval_grammar.go:261-303 | a comment that meets the rest is granted on whether any part of it is quoted raw or from the escaped bundle |
| `ApprovalGate.CarveOutGrants` | internal/controller/approval_grammar.go:521-538 | no maintainer comment and all axes passing grant automatically |
| `ApprovalGate.MaintainerBlocksCarveOut` | internal/controller/approval_grammar.go:356-381 | once a maintainer wrote, nothing is granted automatically or uncited |
| `ShipGate.ApprovalShipVerdict` | internal/controller/approval_ship.go:114-164 | the loops name every live Issue when none carries evidence, otherwise the automatic ones over the ceiling |
| `ShipGate.NamedExactlyWhen` | internal/controller/approval_ship.go:114-164 | exactly when one Issue is named, so cited approvals are never capped |
| `ShipGate.OpenPathClear` | internal/controller/approval_ship.go:71-113 | opening is clear exactly when nothing is live or something live was granted |
| `ShipGate.BlockersMonotone` | api/v1alpha1/significance.go:66-75 | blockers only grow with declared significance and only shrink as the ceiling rises |
| `ShipGate.LateArrivalAddsNothing` | internal/controller/approval_ship.go:114-164 | once a live Issue carries evidence, a late Issue without any changes nothing |
| `ShipGate.ClosingAddsBlockerIff` | internal/controller/approval_ship.go:114-164 | closing any set of Issues adds a blocker exactly when it removes the last live evidence and leaves an Issue live |
| `ShipGate.FullyGrantedClosesFreely` | internal/controller/approval_ship.go:114-164 | while every live Issue carries evidence, closing any subset adds no blocker |
| `GateRuns.EvidenceStands` | internal/controller/approval_grammar.go:352-354 | over every run, reopenings included, no event takes evidence away |
| `GateRuns.RunKeepsConsent` | internal/controller/approval_grammar.go:352-354 | until the Issue is reopened after a rejection, nothing revokes or replaces a consent, and only a later gate call changes the plan it is pinned to |
| `GateRuns.ReopenedNeedsAnotherComment` | internal/controller/issue_apply.go:425-483 | a reopened Issue is open to the gate again, but not on the comment it was granted on |
| `GateRuns.GrantKeepsShipOpen` | internal/controller/approval_ship.go:114-164 | from a grant on, while one Issue it was written on is live or live again, opening is never blocked and submitting only by the ceiling |
| `GateRuns.OpenPathClearIff` | internal/controller/approval_ship.go:114-164 | without another gate call, opening stays clear exactly when an Issue with evidence is live at the end or none is |
| `GateRuns.ClosedScopeWedges` | internal/controller/approval_ship.go:114-164 | a granted Issue closed while a late one is live blocks the open path |
| `GateRuns.AutoGrantSettledAtSubmit` | internal/controller/approval_ship.go:142-163 | an automatic grant is named at submit exactly when its evidence is still automatic and the significance over the ceiling; automatic it stays unless the Issue was rejected and reopened |
| `GateRuns.AutoGrantCanShipIff` | api/v1alpha1/significance.go:35-75 | automatically granted work can ship at some significance exactly when the ceiling is ranked, and then at the ceiling itself |
| `GateRuns.GateCarries` | internal/restapi/outcome.go:2335-2384 | each live Issue of a granted scope that the write loop reached is approved on its own evidence and pinned to the plan |
| `TokenWindows.CurrentWindowStart` | internal/budget/budget.go:184-196 | the bounded loop computes the last fire of the stretch it looks at |
| `TokenWindows.SearchFindsIffRecent` | internal/budget/budget.go:178-196 | it finds the true latest fire exactly when that is less than two windows old |
| `TokenWindows.TwoWindowsOldMissed` | internal/budget/budget.go:178-196 | a concrete schedule whose latest fire is exactly two windows old and missed |
| `TokenWindows.EveryIsDense` | internal/budget/budget.go:178-196 | a schedule of any fixed period of at most two windows meets the assumptions of the two laws below |
| `TokenWindows.Roll` | internal/budget/budget.go:204-220 | the roll opens the found window when it is newer and adds positive tokens only |
| `TokenWindows.WindowCountsExactly` | internal/budget/budget.go:198-212 | over any nondecreasing run of turns with reads anywhere between, the window is the one the latest fire opened and its count is exactly what was spent since |
| `TokenWindows.StartNeverMovesBack` | internal/budget/budget.go:204-212 | the window start never moves back, whatever the clock does |
| `TokenWindows.UsedPercentMeasuresWindow` | internal/budget/budget.go:285-291 | the gate reaches a threshold exactly when the tokens since the governing fire are that share of the limit |
| `Subscription.SubscriptionDecision` | internal/budget/budget.go:246-279 | the loop over the two windows gives the decision stated without a loop |
| `Subscription.GoverningIsWorst` | internal/budget/budget.go:246-279 | the reported percentage and thresholds belong to one counted window under the most pressure |
| `Subscription.EmergencyImpliesProactive` | internal/budget/budget.go:336-374 | emergency blocking implies proactive blocking for every configuration |
| `Subscription.AgreesWithSinglePair` | internal/budget/budget.go:293-302 | without thresholds per window and on a fresh snapshot the decision is the maximum over the active windows against one pair |
| `Subscription.BlocksOnlyFade` | internal/budget/budget.go:246-279 | for one snapshot a block at some time is a block at every earlier time |
| `Subscription.GateReopens` | internal/budget/budget.go:329-331 | nothing is blocked once both windows reset or the snapshot has aged out |
| `Pins.ArtifactPinLines` | internal/controller/deploy_stage.go:476-493 | the scan over the text collects the specified lines |
| `Pins.OwnLinesListed` | internal/controller/deploy_stage.go:476-493 | which are exactly the non-header lines that hold the image token or whose nearest preceding header maps to the artifact, in order |
| `Pins.HeaderIff` | internal/controller/deploy_supervision.go:62-64 | a line opens a release exactly when it spells the header grammar, and its name is then unique |
| `Pins.HeadersAt` | internal/controller/deploy_stage.go:483-487 | each line is classified by itself |
| `Pins.JoinSplit` | internal/controller/deploy_stage.go:483 | splitting a pin state into lines loses nothing |
| `Pins.SplitLines` | internal/controller/deploy_stage.go:483 | no line holds a newline |
| `Pins.ParseReads` | internal/controller/deploy_stage.go:443-460 | three dotted numbers behind text without digits are read as written, and a number past 64 bits spoils them |
| `Pins.NamedVersionReached` | internal/controller/deploy_stage.go:476-527 | a line that names the image with a version has reached exactly the tags up to it |
| `Pins.OthersNameTheirImage` | internal/controller/deploy_supervision.go:50-60 | with the table as it is, every artifact but the operator is attributed by its image token only |
| `Pins.TokenMatch` | internal/controller/deploy_supervision.go:76-98 | finds the token exactly when it stands somewhere untouched by version characters |
| `Pins.PinCarriesArtifactVersion` | internal/controller/deploy_supervision.go:125-145 | exactly when some line of the artifact carries the version as a whole token |
| `Pins.PinArtifactPresent` | internal/controller/deploy_stage.go:498-505 | exactly when some line of the artifact carries a version |
| `Pins.PinAtOrPastArtifactVersion` | internal/controller/deploy_stage.go:516-527 | exactly when some line of the artifact has reached the version, a version that does not parse being matched literally |
| `Pins.ForwardIff` | internal/controller/deploy_stage.go:507-515 | the pins moved forward exactly when every version they had reached they still have |
| `Pins.AtOrPastMonotone` | internal/controller/deploy_stage.go:507-515 | moving the pins forward or lowering the tag never takes a yes back |
| `Pins.BumpedForward` | internal/controller/deploy_stage.go:507-515 | raising versions line by line moves the pins forward |
| `Pins.InsertForward` | internal/controller/deploy_stage.go:476-493 | so does putting in any block between releases, or one that opens none |
| `Pins.RemoveForward` | internal/controller/deploy_stage.go:476-493 | and taking out such a block that says no version for the artifact |
| `Pins.ForwardTransitive` | internal/controller/deploy_stage.go:507-515 | and any sequence of such edits |
| `Pins.KeptForwardIff` | internal/controller/deploy_stage.go:507-520 | the answer for a tag survives every forward move of every artifact's pins exactly when the tag is a version, or empty |
| `Pins.LiteralStepsBack` | internal/controller/deploy_stage.go:514-520 | every other tag is matched literally, and taking out a line that says no version takes the answer back |
| `Pins.ForgeTagKept` | internal/scm/github_deploy.go:107-131 | every tag the forge's reader accepts is the version it was accepted for, so that its answer survives |
| `Pins.ParseBehind` | internal/controller/deploy_stage.go:443-460 | text without digits in front does not change the version that is read |
| `Pins.PresentStays` | internal/controller/deploy_stage.go:498-505 | a present artifact stays present as pins move forward |
| `Pins.AtOrPastIsPresent` | internal/controller/deploy_stage.go:498-527 | an artifact that reached a version is present |
| `DeployStage.Driver.ReconcileDeploying` | internal/controller/deploy_stage.go:93-144 | the pass stamps up to the first failure or overdue pin, parks exactly on an overdue one, and delivers exactly when everything listed is settled, the second list agrees, and every issue closes |
| `DeployStage.Driver.Sweep` | internal/controller/deploy_stage.go:107-137 | the loop's store, its early exit, and pending is zero exactly when all are settled |
| `DeployStage.Driver.ResolveDeployed` | internal/controller/deploy_stage.go:188-299 | stamps exactly when one of the four grounds holds and the write succeeds, stalls exactly when overdue, and writes nothing else |
| `DeployStage.Driver.FanoutBoundedWait` | internal/controller/deploy_stage.go:319-346 | gives up exactly when the main pin is behind the tag and a recorded merge is 45 minutes old |
| `DeployStage.Driver.StampDeployed` | internal/controller/deploy_stage.go:399-421 | writes the time once and the version when one is named |
| `DeployStage.Driver.CloseIssuesOnDelivery` | internal/controller/merge.go:756-834 | delivers only over a non-empty list of deployed merge requests and only after closing every open issue in order |
| `DeployRuns.StampsStay` | internal/controller/deploy_stage.go:397-421 | over every run a stored stamp never changes and no merge is undone |
| `DeployRuns.StampsJustified` | internal/controller/deploy_stage.go:188-299 | every stamp rests on one look of one pass: no observable cascade, no pin, or a successful apply not older than a recorded merge that carries the tag or is the deploy repository's own |
| `DeployRuns.DeliveryIsSafe` | internal/controller/merge.go:756-834 | a delivering pass listed at least one merge request, all merged and stamped in the store then and ever after, and every issue is closed |
| `DeployRuns.EmptySetIsNoLicence` | internal/controller/deploy_stage.go:99-104 | no run delivers without a merged and stamped merge request |
| `DeployRuns.ReachedDelivers` | internal/controller/deploy_stage.go:138-144 | a pass that settles its list delivers, on an up-to-date second list, unless an issue does not close or the Task cannot move on |
| `DeployRuns.ParkingNeeds` | internal/controller/deploy_stage.go:301-346 | parking needs a merge recorded 45 minutes ago, a tag, and a pin that is there but behind |
| `DeployRuns.SupersededStaysLive` | internal/controller/deploy_stage.go:507-515 | what one apply carried, every later one with forward pins carries |
| `DeployRuns.FreshPassKeepsVersion` | internal/controller/deploy_stage.go:399-421 | a pass over an up-to-date list never touches a stamped merge request |
| `DeployRuns.VersionStaysIff` | internal/controller/deploy_stage.go:399-421 | over a run a recorded version stays exactly when no pass has a look that stamps the merge request under another |
| `DeployRuns.OverwritingListIsStale` | internal/controller/deploy_stage.go:399-421 | for a stamped merge request such a look works from a list that misses the stamp |
| `DeployRuns.StaleListOverwritesVersion` | internal/controller/deploy_stage.go:399-421 | an old list lets a second look overwrite the version |
| `CloseDirective.FilterCloseDirectives` | internal/controller/closedirective.go:110-138 | the replacement over the body is the specified filter |
| `CloseDirective.RewriteDirective` | internal/controller/closedirective.go:111-137 | the two loops over `ok` and `parts` give the specified rewriting |
| `CloseDirective.FilterCloseDirectivesForTask` | internal/controller/closeinvariant.go:89-97 | a live sibling filters with the empty allowlist |
| `CloseDirective.PiecesInOrder` | internal/controller/closedirective.go:110-138 | the result is the body piece by piece, each directive replaced by its rewriting |
| `CloseDirective.OthersStay` | internal/controller/closedirective.go:97-108 | every token outside directives, stray keywords, gaps and separators too, stays itself in its place |
| `CloseDirective.InOrBetween` | internal/controller/closedirective.go:110-138 | every token of a body is in one directive or between them |
| `CloseDirective.FilterKeeps` | internal/controller/closedirective.go:97-108 | every reference survives in order, and so does all plain text |
| `CloseDirective.AllAllowedUnchanged` | internal/controller/closedirective.go:97-98 | a body whose directives name allowed references only is unchanged |
| `CloseDirective.OpenOwnedMRs` | internal/controller/closeinvariant.go:40-50 | the names of exactly those neither merged nor closed, in order; none exactly when all are settled |
| `CloseReadings.RewrittenBindsAllowed` | internal/controller/closedirective.go:99-104 | a rewritten directive puts a keyword right before exactly its allowed references, in order |
| `CloseReadings.OneKeywordSafeIff` | internal/controller/closedirective.go:92-138 | read with one keyword per reference the result closes allowed references only, exactly when no directive with a disallowed first reference stands behind another keyword |
| `CloseReadings.ListSafeIff` | internal/controller/closedirective.go:92-138 | the exact condition for the list reading |
| `CloseReadings.RebuiltListSafeIff` | internal/controller/closedirective.go:127-136 | the exact condition for one rebuilt directive in the list reading |
| `CloseReadings.WrittenCloses` | internal/controller/closedirective.go:38-48 | as written, a directive binds its first reference, and as a list all of them |
| `CloseReadings.LiveSiblingClosesNothingIff` | internal/controller/closeinvariant.go:65-97 | with a live sibling both readings close nothing exactly when no directive stands behind another keyword |
| `CloseReadings.ListKeepsDisallowed` | internal/controller/closedirective.go:99-104 | `Closes #7, #8` with only 7 allowed comes out unchanged and as a list closes 8 |
| `CloseReadings.StackedKeywordSurvives` | internal/controller/closedirective.go:104-106 | `fixes closes #8` leaves `fixes #8`, which a second pass strips |
| `CloseTwice.UnchangedIff` | internal/controller/closedirective.go:97-104 | a pass leaves a body as it is exactly when each directive is wholly allowed or already reads `Closes`, one space, an allowed reference and disallowed ones behind a comma and a space |
| `CloseTwice.SteadyIff` | internal/controller/closedirective.go:92-138 | which can be read off token by token with one phase |
| `CloseTwice.SecondPassIff` | internal/controller/closedirective.go:92-138 | a second pass changes nothing exactly when no directive with a disallowed first reference stands behind another keyword, or behind a separator that hangs it on a run the filter would not write |
| `CloseTwice.JoinedGrows` | internal/controller/closedirective.go:99-104 | `fixes #7, closes #8` with only 7 allowed has no stacked keyword, becomes `fixes #7, #8`, and on a second pass `Closes #7, #8` |
| `Utf8.TruncateUTF8` | api/v1alpha1/limits.go:113-122 | the shrinking loop returns the specified cut |
| `Utf8.TruncateLongest` | api/v1alpha1/limits.go:104-122 | an input that fits comes back, any other as its longest well-formed prefix within the limit |
| `Utf8.TruncateDropsAtMostThree` | api/v1alpha1/limits.go:113-122 | well-formed input loses at most three bytes below the limit |
| `Utf8.TruncateTwice` | api/v1alpha1/limits.go:113-122 | two cuts are one at the smaller limit, for every byte string |
| `Utf8.IllFormedMayLoseAll` | api/v1alpha1/limits.go:113-122 | bytes that start no character are all lost |
| `Utf8.EncodeWellFormed` | api/v1alpha1/limits.go:113-122 | the encodings of section 4 of RFC 3629 are well-formed and read back |
| `Utf8.DecodeRoundTrip` | api/v1alpha1/limits.go:113-122 | every well-formed byte string is such an encoding |
| `Text.TrimSpaceTrims` | api/v1alpha1/limits.go:168-194 | trimming drops white space only and leaves trimmed text alone |
| `Titles.ClampIssueTitle` | api/v1alpha1/limits.go:168-194 | the clamp as composed by the code is the specified one |
| `Titles.TruncateRunes` | api/v1alpha1/limits.go:129-141 | the counting loop keeps the first runes |
| `Titles.ClampFits` | api/v1alpha1/limits.go:143-194 | at most 255 runes, no line break, no outer white space; the identity on such titles, hence idempotent |
| `Titles.ClampKeeps` | api/v1alpha1/limits.go:143-194 | a title that fits keeps all but white space, a longer one a leading part and the marker |
| `Titles.FlattenLines` | api/v1alpha1/limits.go:219-234 | flattening leaves no line break and changes white space only |
| `Titles.FlattenLength` | api/v1alpha1/limits.go:219-234 | each break becomes one space, a CR LF pair counting as one |
| `CIDecline.CIDeclineEvidence` | api/v1alpha1/ci_decline.go:61-103 | the filter, the sort and the aggregating loop give the specified pair |
| `CIDecline.EveryOrderSameEvidence` | api/v1alpha1/ci_decline.go:52-60 | every permutation of merge requests with distinct names gives the same pair |
| `CIDecline.SameLiveSameEvidence` | api/v1alpha1/ci_decline.go:61-103 | the pair depends on the set of live merge requests alone |
| `CIDecline.OthersIgnored` | api/v1alpha1/ci_decline.go:41-48 | an external, merged or closed one changes nothing, wherever it stands |
| `CIDecline.VerdictMeans` | api/v1alpha1/ci_decline.go:14-31 | exactly when the evidence is absent, red or green |
| `CIDecline.FingerprintIdentifies` | api/v1alpha1/ci_decline.go:52-58 | while no name holds an @ and no head a comma, fingerprints are equal exactly when the same names stand at the same heads |
| `CIDecline.MarksCollide` | api/v1alpha1/ci_decline.go:52-58 | a comma inside a head would let different sets share a fingerprint |
| `CIDecline.NameMarkCollides` | api/v1alpha1/ci_decline.go:52-58 | and so would an @ inside a name |

## Left out

- Deletion of the ledger's ConfigMap, and server answers that are lost after a commit: a write is either accepted or refused, and the caller learns which.
- JSON bytes of the ledger: an abstract codec with a blank, a parsed and an unparseable form.
- Real sleeps that overshoot: the clock advances by at most the duration slept, and forge and cluster calls take no time.
- NoteText.WarningReadsBack: names hold no comma and no space, as repository names on both forges do not.
- NoteText.SentenceAccountsForAll: names hold no comma and no space, for the same reason.
- Metrics, logs, refusal guidance texts and the pod's own teardown beyond its yes or no.
- `html.UnescapeString` beyond the five entities of section 4.6 of XML 1.0, and bodies that are not valid UTF-8.
- sha256, the proposal-marker pattern and case folding of logins: functions of an abstract oracle.
- Single use of an approval over the whole history: the code records the latest evidence only, and so does the model.
- Issue changes in a run of the gates other than arriving, a new thread, opening and closing on the forge, settling, reopening and further gate calls.
- Robfig cron: an abstract schedule whose `Next` is the first fire after an instant; its five-year search limit and parse errors are not modelled.
- Floating-point rounding and 64-bit wrap-around of token counts: percentages are reals and counts are integers.
- `KindBlocked` and the mode switch of `Evaluate`: one-line dispatches over what is modelled.
- Regex matching of close directives on characters: a body is a sequence of keyword, gap, reference, separator and text tokens, so keywords and references fused with other characters are not modelled.
- `LatestSemverTag` beyond which tags it accepts, the fetching of pin files, and how a repository is resolved: arbitrary answers.
- The order in which the sort of the decline evidence compares: with distinct names only one ascending order exists.
- Other stages, the conflict sweep, the webhook and the REST handlers around these functions.
