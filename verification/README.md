# Browser Bridge: verified models of its stateful cores

This project models the parts of Browser Bridge that keep state, parse text or promise
an exact result, and proves what they promise. Each core is a group of modules.

- **JSON settings editor** (`JsonText`, `JsonTree`, `JsonGrammar`, `JsonParser`, `JsonTreeEdit`,
  `JsonEdit`, `JsonEditLaws`, `JsonTrivia`). A concrete syntax tree keeps every byte of a text. The
  parser object refines a reading function on suffixes, the splices of the editor refine edits of the tree, and the
  laws of setting and deleting are stated on texts. `encoding/json` is a parameter; its decoding of a
  key after encoding is the law the laws ask for.
- **Mutation scheduler and request life cycle** (`DaemonState`, `SchedulerLaws`, `DaemonLaws`,
  `DaemonRuns`, `DaemonWaiting`, `DaemonLeaving`, `DaemonAnswers`, `Daemon`). Each section under
  the daemon lock is one transition on a state; timers and map walks in any order are inputs. The class
  changes its tables in place and takes those transitions.
- **Native updater** (`UpdateVersion`, `UpdateFeed`, `UpdateState`, `UpdateRun`, `UpdateLaws`,
  `UpdateRuns`, `UpdateOutcomes`, `UpdateStranded`, `Updater`). One run is a transition on the saved
  state; what a run reads, downloads and probes, and whether a save reached the disk, are inputs. The
  laws are over all sequences of runs.
- **Accessibility tree** (`AxWalk`, `AxOrder`, `AxPaths`, `AxBuild`, `AxTree`, `AxReport`, `AxOutline`, `AxScope`).
  Links may be missing, shared or cyclic unless a law says otherwise.
- **Recovery telemetry** (`TelemetryLog`, `TelemetryRing`, `TelemetryGroups`, `Telemetry`,
  `TelemetryPublic`). A ghost log of all events is the reference for the ring and the failure groups.
- **Artifacts and ordered storage** (`Artifact`, `ArtifactStore`, `ArtifactTransfer`, `StorageExecutor`).
- **Text forms** (`CliUnicode`, `CliQuote`), **near spellings** (`EditDistance`), **framing** (`Wire`),
  **visual comparison** (`VisualGeometry`, `VisualBaseline`) and **bounded output** (`Bounder`).

`Options`, `FiniteSets` and `MapSum` hold what several groups share. `dafny verify dfyconfig.toml` checks
the whole project.

Five statements one might expect are false of the code. For each the model has an input that
shows it and the exact condition under which the statement holds:

- every parent comes before its children in document order (`AxOrder.SharedChildComesFirst`,
  `AxPaths.ParentsFirstIff`; its recorded parent always does, `AxOrder.ParentComesFirst`);
- every reported node has a line in the outline (`AxOutline.CycleHasNoOutline`, `AxOutline.OutlineExact`);
- a rollback becomes effective (`UpdateStranded.RollbackWithoutEffect`, `UpdateRuns.RollbackLandsOn`);
- decoding a quoted text gives it back (`CliQuote.TextsThatChange`, `CliQuote.QuoteSurvives`);
- nothing waits in the scheduler that could be granted (`DaemonLeaving.NavigationLeftWaiting`,
  `DaemonWaiting.GrantsNothingIff`; what waits so is always a navigation behind cancelled work,
  `DaemonWaiting.OnlyNavigationsWait`).

## Model

| member | source | states |
|---|---|---|
| JsonGrammar.ParserDecidesGrammar | internal/bridge/agents_json.go:83-180 | A text is accepted exactly when some well-formed document (RFC 8259 objects, arrays, strings and scalars with comments, trailing commas, a leading byte order mark, at most 128 levels, no key twice in an object) prints to it |
| JsonGrammar.GrammarUnambiguous | internal/bridge/agents_json.go:83-180 | Two well-formed documents that print to the same text are the same document, trivia included |
| JsonParser.InstallParseJSON | internal/bridge/agents_json.go:167-180 | The parser object returns exactly the tree of spans of the document the text is, and fails on every other text |
| JsonParser.Parser.Trivia | internal/bridge/agents_json.go:29-59 | Skips exactly the blanks, comments and, at the very start, the byte order mark, and fails only on a comment that never closes |
| JsonParser.Parser.BlanksAndComments | internal/bridge/agents_json.go:32-58 | The trivia loop stops at the first byte that starts no blank and no comment |
| JsonParser.Parser.StringToken | internal/bridge/agents_json.go:61-81 | A string token reaches from its quote to the first later quote that an even number of backslashes stands before, and its decoded text is answered; without such a quote, or when decoding fails, nothing is |
| JsonText.StringTokenIs | internal/bridge/agents_json.go:61-81 | The string tokens of the grammar are exactly the texts from a quote to the first unescaped quote |
| JsonTrivia.TriviaMeans | internal/bridge/agents_json.go:29-59 | Trivia is read to the first byte that starts no blank and no comment, or through a last line comment; it fails exactly on a block comment that never closes |
| JsonTrivia.ClosedTriviaIff | internal/bridge/agents_json.go:29-59 | The gaps of the grammar are exactly the sequences of blanks, line comments with their line feed and block comments up to their first closing mark |
| JsonParser.Parser.Node | internal/bridge/agents_json.go:83-165 | Reads the value at the position with all of its member spans, or fails, exactly as the grammar reads it |
| JsonParser.Parser.Members | internal/bridge/agents_json.go:93-141 | The member loop collects the spans of all members in order, each comma with its member, and rejects a repeated key |
| JsonParser.Parser.Member | internal/bridge/agents_json.go:105-140 | One member is read with its key, the place of its first byte, its value and its comma |
| JsonParser.ParsedSpansNested | internal/bridge/agents_json.go:83-165 | Spans of an accepted text lie inside the text and inside their parents, follow each other without overlap, and every member but the last of its container has a comma recorded behind its value |
| JsonTreeEdit.PutWf | internal/bridge/agents_json.go:207-255 | Setting a path in a well-formed tree gives a well-formed tree, provided the new value still fits in the depth limit |
| JsonTreeEdit.PutLookup | internal/bridge/agents_json.go:182-255 | After setting a path, that path holds exactly the new value and every unrelated path holds what it held |
| JsonTreeEdit.PutTwice | internal/bridge/agents_json.go:207-255 | Setting the same path to the same value again changes nothing |
| JsonTreeEdit.RemoveWf | internal/bridge/agents_json.go:213-236 | Deleting a member leaves a well-formed tree |
| JsonTreeEdit.RemoveLookup | internal/bridge/agents_json.go:213-236 | After deleting a path it is absent, and every unrelated path holds what it held |
| JsonTreeEdit.RemoveTwice | internal/bridge/agents_json.go:213-236 | Deleting a second time changes nothing |
| JsonTreeEdit.EditsNeedObjectPath | internal/bridge/agents_json.go:207-212 | An edit succeeds if and only if no proper prefix of the path leads to something that is not an object |
| JsonEdit.EditSplices | internal/bridge/agents_json.go:207-255 | The text that byte splicing produces is the printed form of the edited tree: every byte outside the edited member survives |
| JsonEditLaws.SetLaw | internal/bridge/agents_json.go:199-255 | For every accepted text, object path and value text within the depth limit: the edited text is accepted again, the path reads back exactly the replacement, unrelated paths keep their exact bytes, and setting again changes nothing |
| JsonEditLaws.SetKeepsBytes | internal/bridge/agents_json.go:207-255 | A setting replaces the bytes of the value the path leads to, or adds one member behind the last comma or value of the deepest object on the way; every other byte is kept, comments included |
| JsonEditLaws.DeleteLaw | internal/bridge/agents_json.go:199-236 | For every accepted text and object path: the text without the member is accepted again, the path is absent, unrelated paths keep their exact bytes, and deleting again changes nothing |
| JsonEditLaws.DeleteRemovesMember | internal/bridge/agents_json.go:213-236 | A deletion removes exactly the bytes of the member and at most one comma |
| JsonEditLaws.InstallJSONEdit | internal/bridge/agents_json.go:199-205 | The editor refuses a text that does not parse and otherwise exactly the paths with a proper prefix that leads to something other than an object; else its answer parses, the path leads to the replacement, or nowhere after a deletion, and unrelated paths keep their bytes |
| SchedulerLaws.GrantKeeps | internal/bridge/scheduler.go:82-122 | A granting pass keeps the tables, the life cycle of entries, the queue order and the exclusive use of tabs, and leaves nothing in the queue that could be granted |
| SchedulerLaws.GrantTwice | internal/bridge/scheduler.go:82-122 | A second granting pass right after the first grants nothing |
| SchedulerLaws.SettledGrantsNothing | internal/bridge/scheduler.go:82-122 | A queue in which nothing is grantable is left unchanged by a granting pass |
| DaemonRuns.StepKeeps | internal/bridge/daemon.go:531-610 | Every step, with map walks in any order, keeps the whole invariant: tables, queue order, tab exclusion, peers, counters, answers, capacities and timers |
| DaemonRuns.ReachableHolds | internal/bridge/daemon.go:531-610 | Every state a run can reach satisfies the invariant |
| DaemonRuns.OneRunningMutationPerTab | internal/bridge/scheduler.go:82-122 | In every reachable state at most one granted uncancelled mutation uses a tab, and one that shares its tab with cancelled work is a navigation |
| DaemonRuns.QueueOrderKept | internal/bridge/scheduler.go:60-122 | In every reachable state nothing behind a mutation of unknown tab has been granted, and only a navigation has overtaken an ungranted mutation of the same tab |
| DaemonRuns.TablesAgree | internal/bridge/scheduler.go:40-58 | In every reachable state each entry is exactly once in its own target's queue, is cancelled exactly when its request has left the request table, and then had been granted |
| DaemonWaiting.OnlyNavigationsWait | internal/bridge/scheduler.go:60-158 | In every reachable state, a ready mutation that neither running work nor preparation ahead of it stops, and that still waits although access is on, is a navigation on a tab that cancelled work holds |
| DaemonWaiting.GrantsNothingIff | internal/bridge/scheduler.go:82-122 | In every reachable state with access on, a granting pass changes nothing if and only if the queue holds no ready navigation whose tab only cancelled work holds, with no preparation ahead in its way |
| DaemonWaiting.NothingGrantableWaits | internal/bridge/scheduler.go:60-158 | After every step but a disconnect that removes any mutation of a browser (response, completion, cancellation, timeout, expiry, invalid ready, revocation), makes one ready or turns its access on, none of its mutations waits that could be granted |
| DaemonLeaving.NavigationLeftWaiting | internal/bridge/scheduler.go:160-180 | A run from the start to a disconnect after which a navigation waits that the next granting pass would start: why a disconnect is apart |
| DaemonRuns.AnsweredExactlyOnce | internal/bridge/daemon.go:891-1069 | An accepted request is answered exactly once, unless its owner has gone, and never while it is pending |
| DaemonRuns.CountersAndCapacities | internal/bridge/daemon.go:812-865 | In every reachable state a peer's counter is the number of its routed and storage requests and at most 16, at most 128 requests are pending, and the scheduler limits hold |
| DaemonRuns.EndingSetsTimer | internal/bridge/scheduler.go:160-180 | Whichever step ends the request of a running mutation (response, completion, cancellation, timeout, revocation, disconnect of its owner), a slot that stays is cancelled and its timer is set to 20 seconds past the later of that moment and its deadline |
| DaemonRuns.CanceledSlotIsReleased | internal/bridge/scheduler.go:160-180 | Whichever step ended the request of a running mutation and whatever steps follow, its slot is gone once the clock is past that time |
| SchedulerLaws.QueuedBehindCanceledWaits | internal/bridge/scheduler.go:183-194 | A mutation reported as queued behind cancelled work is not granted by any granting pass while that work holds the tab, unless it is a navigation |
| Daemon.Daemon.QueuedBehindCanceled | internal/bridge/scheduler.go:183-194 | True exactly when a ready, ungranted mutation shares its tab with cancelled work that had been granted |
| Daemon.Daemon.GrantMutations | internal/bridge/scheduler.go:82-122 | The loop over the queue, with its local maps of busy and cancelled tabs, takes the granting transition; exactly the granted entries are announced, each to its own browser and once |
| DaemonAnswers.GrantTells | internal/bridge/scheduler.go:82-122 | A granting pass sends one grant message for each entry it grants, to that entry's browser, and no other message |
| Daemon.Daemon.RemoveMutation | internal/bridge/scheduler.go:136-158 | The loop that closes the gap in the queue, and the pass after it, take the removal transition |
| Daemon.Daemon.CancelMutation | internal/bridge/scheduler.go:160-180 | Takes the cancelling transition, whose effect `DaemonLaws` and `DaemonRuns.EndingSetsTimer` state |
| Daemon.Daemon.MutationReady | internal/bridge/scheduler.go:60-80 | A first ready message marks the entry ready on the tab it names, or ends the request with a failure when the tab does not fit; any other message changes nothing |
| Daemon.Daemon.RevokeMutations | internal/bridge/scheduler.go:124-134 | The walk over the scheduler's entries visits each of them, in whatever order the map gives, and takes the revoking transition in that order |
| Daemon.Daemon.ScheduleMutation | internal/bridge/scheduler.go:40-58 | Refuses exactly at a scheduler limit, and otherwise takes the scheduling transition |
| Daemon.Daemon.Route | internal/bridge/daemon.go:812-865 | A new request becomes pending exactly when its name is unused, it has a target and every limit leaves room; then it is counted, queued if it is a mutation for a scheduling browser, and forwarded; otherwise it is refused and nothing else changes |
| Daemon.Daemon.Finish | internal/bridge/daemon.go:891-953 | The request leaves the table, its owner is counted down by one and the last message is the answer to it; a request that is gone changes nothing |
| Daemon.Daemon.Response | internal/bridge/daemon.go:955-1018 | A settled response of the target is answered with its own outcome, a malformed one and one without room to store with a failure, any other not at all; a response of the slot's browser frees the slot even when the request is gone |
| DaemonAnswers.ResponseAnswers | internal/bridge/daemon.go:955-1018 | The same of every response step |
| DaemonAnswers.CancelAnswers | internal/bridge/daemon.go:875-953 | A cancelled or timed out request is cancelled in its browser and answered with a failure |
| DaemonAnswers.SuccessIsEarned | internal/bridge/daemon.go:891-1018 | In every run a success is reported only to the owner of a request, for a success its own browser settled or the daemon completed while the request was pending |
| Daemon.Daemon.AccessUpdate | internal/bridge/daemon.go:575-592 | Access is as the message says; on leaves nothing of that browser grantable, off leaves none of its mutations pending; the invariant is kept |
| Daemon.Daemon.Disconnect | internal/bridge/daemon.go:1021-1069 | Whatever order its two walks take, no pending request has the peer as owner or target, no entry has it as target, it has no queue, and the invariant is kept |
| DaemonRuns.DisconnectLeavesNoTrace | internal/bridge/daemon.go:1021-1069 | The same of every disconnect step from a reachable state |
| DaemonRuns.AccessDecides | internal/bridge/daemon.go:575-592 | From every reachable state, access on leaves nothing grantable, and access off leaves of that browser's mutations only cancelled ones |
| Daemon.Daemon.StorageRequest | internal/bridge/storage_executor.go:89-119 | A storage request with an unused name within the peer's limit is counted and queued, or failed at once when the executor has no room; any other is refused |
| Daemon.Daemon.StorageDone | internal/bridge/storage_executor.go:103-112 | Completing a storage request removes it, counts its peer down once and answers the peer with the outcome if it is still connected |
| Daemon.Daemon.Expire | internal/bridge/scheduler.go:172-179 | The slot timer removes exactly this entry and grants its queue |
| UpdateVersion.ParsePrint | internal/bridge/update_verify.go:80-99 | Every version whose three numbers fit in 64 bits has a text that reads back as it |
| UpdateVersion.PrintParse | internal/bridge/update_verify.go:80-99 | An accepted version text is the only text with its numbers |
| UpdateVersion.TotalOrder | internal/bridge/update_verify.go:101-119 | The comparison is a total order on version texts: equal means the same text, and of two versions one is at most the other |
| UpdateVersion.Transitive | internal/bridge/update_verify.go:101-119 | The order of versions is transitive |
| UpdateVersion.OrderIsNumeric | internal/bridge/update_verify.go:101-119 | Versions are compared number by number, the major one first |
| UpdateFeed.CountSigners | internal/bridge/update_verify.go:211-221 | The signature loop counts the trusted keys with at least one valid signature, each once |
| UpdateFeed.CheckReleases | internal/bridge/update_verify.go:238-266 | The release loop accepts exactly lists of valid releases with distinct versions |
| UpdateFeed.VerifyFeed | internal/bridge/update_verify.go:192-268 | Bytes become a feed exactly when at least the threshold of trusted keys signed a manifest with a valid, and if wanted fresh, header and valid releases |
| UpdateFeed.SelectRelease | internal/bridge/update_verify.go:284-315 | The selection loop answers the last of the eligible releases that was greater than all before it, or fails on an unreadable version |
| UpdateFeed.SelectsGreatest | internal/bridge/update_verify.go:284-315 | For the releases of an accepted feed, a release is selected if and only if it is eligible and no eligible release is later |
| UpdateFeed.DefaultStaysOnMajor | internal/bridge/update.go:206-212 | Without a list of supported protocols only releases of the installed major version are eligible |
| UpdateState.BlockAges | internal/bridge/update_store.go:331-338 | Blocking a version anew makes every other block one older and forgets exactly one after which 128 versions have been blocked; blocking it again changes nothing |
| UpdateLaws.NextIsEffective | internal/bridge/update.go:181-204 | Selecting a version no earlier than the effective one makes it the effective one, whatever the rollback marker |
| UpdateRuns.WatermarkOfRun | internal/bridge/update_store.go:321-329 | One run never lowers the accepted feed number and never changes the feed under the same number |
| UpdateRuns.WatermarkOfRuns | internal/bridge/update_store.go:321-329 | The same over every sequence of runs |
| UpdateRuns.RunKeepsConsistent | internal/bridge/update_store.go:158-202 | Every state that is saved can be loaded again, and a marker or rollback point always comes with a current release |
| UpdateRuns.RunsKeepConsistent | internal/bridge/update_store.go:158-202 | The same over every sequence of runs, each by a launcher of any version |
| UpdateRuns.ReachableIsConsistent | internal/bridge/update_store.go:158-202 | Every state that runs can leave behind after a fresh installation can be loaded again |
| UpdateRuns.SavedRecordsVouched | internal/bridge/update.go:97-105 | Every record a saved state names was named before or is listed, with its digest and size, in metadata signed by enough trusted keys |
| UpdateRuns.InstalledRecordsVouched | internal/bridge/update.go:97-105 | After a fresh installation every record a saved state names was vouched for, by signed metadata and its exact bytes, in one of the runs |
| UpdateRuns.RunRaises | internal/bridge/update.go:286-399 | A run that is not a rollback lowers the effective version of no launcher, whatever the version of that launcher |
| UpdateRuns.OnlyRollbackLowers | internal/bridge/update.go:286-399 | The same over every sequence of runs without a rollback, each by a launcher of any version |
| UpdateRuns.ActivatedIsEffective | internal/bridge/update.go:214-284 | After a successful run that is not a rollback the effective version is the activated one, which is the latest release of the accepted feed that may be selected and was not blocked |
| UpdateRuns.UndoneRestores | internal/bridge/update.go:243-271 | After a failed save or a failed second probe with the old state put back: previous and rollback marker are as before, current too or the adopted running release, the effective version is unchanged, and a version that failed its probe is blocked unless the run was a repair, a rollback or cancelled |
| UpdateRuns.RollbackLandsOn | internal/bridge/update.go:311-325 | A rollback selects the previous release, clears it as rollback point and blocks what it left; launchers run it if and only if they are no later than the release left or no later than the release selected |
| UpdateStranded.RollbackWithoutEffect | internal/bridge/update.go:286-325 | A whole run in which launcher 3.0.0 rolls back from 2.0.0 to 1.0.0, reports success and keeps running itself |
| UpdateRuns.RunAvoidsBlocked | internal/bridge/update.go:346-354 | No run activates a version that is in the list of blocked versions, the oldest of the 128 included |
| UpdateRuns.RunAgesBlocked | internal/bridge/update_store.go:331-338 | A run that leaves the list alone ages no block; one that changes it makes each other block one older and forgets exactly one of the full age |
| UpdateRuns.BlockedIsAvoided | internal/bridge/update.go:346-354 | However many runs there are, none activates a version that is blocked when it starts |
| UpdateRuns.BlockedStaysOut | internal/bridge/update_store.go:331-338 | Over every sequence of runs a blocked version stays blocked if and only if fewer than 128 versions have been blocked after it; runs that block nothing do not count |
| UpdateRuns.LeftReleaseStaysOut | internal/bridge/update.go:232-237 | The release a rollback left stays blocked exactly until 128 versions have been blocked after it, and no run activates it while it is blocked |
| UpdateRuns.RollbackOnce | internal/bridge/update.go:311-325 | After a rollback another one is refused until some run has activated a different release, or could not put the old selection back |
| Updater.Manager.Save | internal/bridge/update_store.go:196-202 | Saves the state, which is demanded to name only verified records; a failure may come before or after the file changed |
| Updater.Manager.ReadProof | internal/bridge/update_store.go:292-319 | A record is authorized exactly when stored metadata with its digest, signed by enough keys, lists its version, platform, digest and size |
| Updater.Manager.VerifyInstalled | internal/bridge/update.go:97-105 | Verified exactly when the platform fits, the metadata authorize the record and the executable has its digest and size |
| Updater.Manager.StageFrom | internal/bridge/update.go:111-179 | Only bytes that are exactly the listed artifact, read back and self-tested, become a staged record |
| Updater.Manager.Activate | internal/bridge/update.go:214-284 | Saves the new selection, probes it again, and puts the old one back when saving or probing fails |
| Updater.Manager.Put | internal/bridge/update.go:364-398 | Refuses changed contents under an installed version, adopts the running executable only as a signed release, then stages and activates |
| Updater.Manager.Update | internal/bridge/update.go:326-363 | The steps of an update take the update transition, whose answers `UpdateOutcomes.RunAnswers` states |
| UpdateOutcomes.RunAnswers | internal/bridge/update.go:326-399 | Every answer of a run that is not a rollback with its exact condition: throttled; a check reports the latest release that may be selected; the other actions activate it exactly when contents, adoption, staging and activation are good, unless an install finds it installed; without such a release nothing is installed; without an accepted feed the run fails |
| UpdateOutcomes.BestExists | internal/bridge/update_verify.go:284-315 | Unless no release of an accepted feed may be selected, exactly one is the latest of those that may |
| UpdateOutcomes.CheckOnlyLooks | internal/bridge/update.go:361-363 | A check leaves the selection and the blocks as they were and activates nothing, and no other action answers as a check does |
| UpdateOutcomes.GoodRunInstalls | internal/bridge/update.go:326-399 | With everything good and a release to select, apply, install and repair end with that release activated, or found installed |
| UpdateOutcomes.RollbackAnswers | internal/bridge/update.go:311-325 | Every answer of a rollback with its exact condition |
| UpdateOutcomes.ActivatedKeepsWayBack | internal/bridge/update.go:214-284 | A successful run keeps the release it replaced to go back to, keeps a rollback marker exactly while the activated version is earlier than it, and names both ends |
| UpdateOutcomes.FirstActivationKeeps | internal/bridge/update.go:372-392 | A first activation keeps the running executable to go back to exactly when the feed lists it byte for byte and another version was activated |
| UpdateOutcomes.AcceptedIsSigned | internal/bridge/update_verify.go:192-268 | An accepted feed was signed by at least the threshold of trusted keys, is at most five minutes ahead of the clock, has not expired and lives at most 31 days |
| UpdateOutcomes.EligibleIs | internal/bridge/update_verify.go:284-315 | A release may be selected when it is later than the running version, or equal to it for install and repair, is not blocked, has an artifact for the platform and speaks a supported protocol |
| Updater.Manager.RollBack | internal/bridge/update.go:311-325 | Rolls back to a verified, unblocked previous release or refuses |
| Updater.Manager.Run | internal/bridge/update.go:286-399 | One run from the loaded state takes the run transition, whose answers `UpdateOutcomes.RunAnswers` and `RollbackAnswers` state |
| AxOrder.InDocumentOrder | packages/extension/src/background-accessibility.ts:164-184 | The explicit-stack walk gives the recursive preorder from every root, then the unreached nodes in their old order |
| AxOrder.WalkRoot | packages/extension/src/background-accessibility.ts:171-178 | The stack loop visits what the recursive walk visits, in the same order |
| AxOrder.OrderIsPermutation | packages/extension/src/background-accessibility.ts:164-184 | With unique ids document ordering is a permutation of the nodes |
| AxOrder.ParentComesFirst | packages/extension/src/background-accessibility.ts:104-114 | Without cycles every listed node comes after the first node in document order that lists it, which is its recorded parent |
| AxOrder.TreeParentsComeFirst | packages/extension/src/background-accessibility.ts:164-184 | Where no node is listed twice and there is no cycle, every parent comes before its children |
| AxOrder.SharedChildComesFirst | packages/extension/src/background-accessibility.ts:164-184 | A concrete acyclic graph in which a node precedes one of its two parents: only the recorded parent is sure to come first |
| AxPaths.WalkInPathOrder | packages/extension/src/background-accessibility.ts:164-184 | Without cycles the depth-first walk visits nodes in the order of their least paths of child positions |
| AxPaths.OrderIsPathOrder | packages/extension/src/background-accessibility.ts:164-184 | Without cycles one node precedes another in document order if and only if its least path of root and child positions is lexicographically less |
| AxPaths.ParentsFirstIff | packages/extension/src/background-accessibility.ts:164-184 | Without cycles every parent comes before all its children if and only if, along every child link of the input, the parent's least path is less than the child's |
| AxBuild.RecordParents | packages/extension/src/background-accessibility.ts:104-114 | The recorded parent of a known node is the first node that lists it, and every link to an unknown node is counted as missing |
| AxBuild.FindNearest | packages/extension/src/background-accessibility.ts:132-136 | The climbing loop ends, in a cycle too, with the retained id it reaches |
| AxBuild.NearestMeans | packages/extension/src/background-accessibility.ts:132-141 | A retained node gets the first retained id on its chain of parents, and none exactly when no id above it is retained, cycles or not |
| AxReport.Build | packages/extension/src/background-accessibility.ts:88-159 | For a page with unique ids the tree reports exactly the wanted nodes, or the first maxNodes of them in document order, unchanged but for their children; the counts count them, what was omitted and the links to unknown ids |
| AxReport.TreeDescribes | packages/extension/src/background-accessibility.ts:88-159 | The same of the tree as a function; wanted are the interactive nodes, or all nodes, or with compact those that are not ignored, decorative or text fragments, say something or are a root or interactive, and do not repeat their recorded parent's text |
| AxTree.Reconnect | packages/extension/src/background-accessibility.ts:127-145 | Root ids and child lists are the retained nodes by nearest retained ancestor, in document order |
| AxTree.RetainedOnce | packages/extension/src/background-accessibility.ts:127-150 | The roots and the child lists together hold each reported node exactly once and nothing else |
| AxTree.HangsUnderNearest | packages/extension/src/background-accessibility.ts:131-145 | A reported node hangs under another exactly when that is the first reported node above it, and is a root exactly when there is none |
| AxTree.FewerKeepsParent | packages/extension/src/background-accessibility.ts:125-141 | For any links, with fewer nodes retained a node keeps its parent if and only if it had none or that parent is still retained |
| AxTree.CutKeepsParents | packages/extension/src/background-accessibility.ts:125-141 | Without cycles, cutting to maxNodes gives no reported node another parent |
| AxOutline.FormatOutline | packages/extension/src/background-accessibility.ts:322-349 | The outline visits the reported nodes in preorder from the roots, and its indentation shows for every line which earlier line is its parent |
| AxOutline.Visit | packages/extension/src/background-accessibility.ts:328-346 | The recursive visit adds the line of a node followed by the lines nested in it, and nothing for a node already visited |
| AxOutline.OutlineExact | packages/extension/src/background-accessibility.ts:322-349 | For any links, a reported node has a line if and only if following reported parents from it ends |
| AxOutline.OutlineComplete | packages/extension/src/background-accessibility.ts:322-349 | Without cycles the outline has exactly one line for each reported node |
| AxOutline.CycleHasNoOutline | packages/extension/src/background-accessibility.ts:131-141 | Two nodes that list each other are both reported, neither is a root, and the outline is empty: the reason for the condition above |
| AxScope.NextLevel | packages/extension/src/background-accessibility.ts:206-218 | One breadth-first level adds exactly the known children of what was included |
| AxScope.Descend | packages/extension/src/background-accessibility.ts:204-218 | The levels include exactly the known nodes within the depth, also when they stop early |
| AxScope.WithinIsReach | packages/extension/src/background-accessibility.ts:204-218 | A node is within depth exactly when a path of at most that many child links leads to it |
| AxScope.ClimbAll | packages/extension/src/background-accessibility.ts:219-225 | The ancestor loop collects exactly the ids above the target, and ends in a cycle |
| AxScope.ScopeNodes | packages/extension/src/background-accessibility.ts:188-227 | Scoping keeps, in order, exactly the nodes within maxDepth of the target and the ids above it |
| TelemetryRing.RingKeeps | internal/bridge/telemetry.go:122-143 | Recording an event under a steady clock keeps every ring slot equal to the log's latest bucket of that slot |
| TelemetryRing.SlotIsExact | internal/bridge/telemetry.go:211-221 | A ring slot contributes to a snapshot exactly the log's events of that slot in the five-minute window |
| TelemetryGroups.AddHistory | internal/bridge/telemetry.go:167-170 | The three-slot ring holds the last three failure times |
| TelemetryGroups.PruneHolds | internal/bridge/telemetry.go:109-121 | Pruning loses nothing that a later loop could need |
| TelemetryGroups.LoopsAreExact | internal/bridge/telemetry.go:222-234 | A loop is reported exactly when one kind and method failed three times within 60 seconds since its group was last evicted |
| TelemetryGroups.LoopHasThreeFailures | internal/bridge/telemetry.go:222-234 | An active loop stands for at least three failures among the counted events |
| TelemetryGroups.GroupsFailedLately | internal/bridge/telemetry.go:153-163 | Groups that survive pruning failed within the last minute, so an eviction takes 64 other ones that did |
| Telemetry.Collector.Record | internal/bridge/telemetry.go:122-171 | Recording appends to the log and keeps buckets and groups in agreement with it; no group is forgotten unless 64 are in use and the key is new |
| Telemetry.Collector.EvictOldest | internal/bridge/telemetry.go:154-163 | Eviction happens only at 64 groups and takes one that was touched longest ago |
| Telemetry.Collector.PruneGroups | internal/bridge/telemetry.go:109-121 | Exactly the groups without a failure in the last minute are dropped |
| Telemetry.Collector.Read | internal/bridge/telemetry.go:211-234 | The slots add up to the log's counts and last time over the window |
| Telemetry.Collector.Snapshot | internal/bridge/telemetry.go:203-238 | With a clock that never went back, a snapshot reports for each kind exactly the log's counts and uninterrupted loops |
| TelemetryPublic.ExtensionSnapshotSurvives | protocol/src/recovery-telemetry.ts:105-217 | The normalizer returns every snapshot of the extension's public form unchanged too, however floating point rounds the share of failures |
| TelemetryPublic.NormalizeRecovery | internal/bridge/telemetry.go:240-271 | The normalizer loop accepts exactly the forms whose every kind is countable and timely, returns their numbers, and reports a loop exactly when some kind has one |
| TelemetryPublic.SnapshotSurvives | internal/bridge/telemetry.go:173-271 | The normalizer returns every snapshot the collector can publish unchanged, saturated ones included, whatever share of failures the floating-point quotient rounds to |
| TelemetryPublic.PublishersAgree | protocol/src/recovery-telemetry.ts:181-217 | The daemon and the extension publish the same summary of the same readings, however the quotients round |
| TelemetryPublic.PublishedIsExact | internal/bridge/telemetry.go:173-199 | Up to 10000 attempts the counts are published as they are; beyond them 10000 attempts divided by the share of failures, at least three of them in a loop |
| TelemetryPublic.NormalizeTwice | internal/bridge/telemetry.go:240-271 | Normalizing twice is normalizing once |
| Artifact.WritesConcatenate | internal/bridge/artifact.go:147-164 | Accepted chunks are appended in order and keep the item sound |
| Artifact.Download | internal/bridge/cli_files.go:177-221 | The client loop ends whatever it is answered; what it returns has the declared size and digest, and from a server that holds the artifact it is the artifact |
| ArtifactTransfer.Transfer | internal/bridge/artifact.go:113-286 | Upload then download is the identity, whatever calls for other artifacts, requests and owners come before each chunk, commit and page: the transfer is accepted exactly when it is well declared, new, within every quota and complete with its digest, and then the download loop, with the store as its server, returns the concatenation of the decoded chunks |
| ArtifactTransfer.Others | internal/bridge/artifact.go:113-286 | Any sequence of calls of the store leaves every artifact as it is that the calls do not concern |
| ArtifactTransfer.Upload | internal/bridge/artifact.go:147-187 | With other calls in between, the chunks and the commit succeed exactly when every chunk is accepted in turn and the sum is complete; the item then holds all of them |
| ArtifactTransfer.Fetch | internal/bridge/cli_files.go:177-221 | The download loop over the store's pages, with other calls in between, ends whatever it is answered, and returns an unexpired artifact of the owner as it is |
| ArtifactStore.Store.Begin | internal/bridge/artifact.go:113-145 | A transfer begins exactly when it is well declared, new, and leaves its owner within 16 artifacts and 64 MiB and the store within 256 MiB |
| ArtifactStore.Store.Write | internal/bridge/artifact.go:147-164 | A chunk is appended exactly when it is the next one, canonical, not too long and fits |
| ArtifactStore.Store.Commit | internal/bridge/artifact.go:166-187 | A transfer is committed exactly when all of it arrived with the declared digest, otherwise dropped |
| ArtifactStore.Store.Read | internal/bridge/artifact.go:189-224 | Only the owner of a committed, unexpired artifact is given its pages |
| ArtifactStore.Store.Delete | internal/bridge/artifact.go:226-234 | Only the owner deletes, and exactly that artifact goes |
| ArtifactStore.Store.Prune | internal/bridge/artifact.go:272-278 | Exactly the expired artifacts go |
| ArtifactStore.Store.Cleanup | internal/bridge/artifact.go:280-286 | Exactly the artifacts of the ended request, owner or extension go, and with preserve committed ones of the request stay |
| ArtifactStore.Store.Usage | internal/bridge/artifact.go:125-133 | The quota loop computes the owner's count and bytes and the total in any walk order |
| ArtifactStore.InsertKeepsQuota | internal/bridge/artifact.go:134-136 | The quota condition at begin is enough: the quotas hold in every reachable store, transfers in progress included |
| StorageExecutor.Executor.Submit | internal/bridge/storage_executor.go:20-38 | Ordinary work is refused exactly at 256 queued jobs or 4 MiB, cleanup exactly at 512 jobs, of which at least 256 are then cleanup; an accepted job always has a worker |
| StorageExecutor.Executor.Fetch | internal/bridge/storage_executor.go:42-54 | The only worker takes the oldest job, or stops when there is none |
| StorageExecutor.Executor.Run | internal/bridge/storage_executor.go:40-57 | Left alone, the worker finishes every accepted job in order and stops |
| CliUnicode.DecodeEncode | internal/bridge/cli_unicode.go:12-23 | Decoding inverts encoding for every code point, lone surrogates included (RFC 3629, section 3) |
| CliUnicode.AppendUnits | internal/bridge/cli_unicode.go:24-37 | The loop gives the code units of the bytes |
| CliUnicode.AppendBytes | internal/bridge/cli_unicode.go:38-49 | The loop joins surrogate pairs and encodes everything else as it is |
| CliUnicode.Utf16RoundTrip | internal/bridge/cli_unicode.go:24-49 | Every sequence of 16-bit units survives the byte form, lone surrogates included (RFC 2781, section 2) |
| CliQuote.AppendQuote | internal/bridge/cli_output.go:193-235 | Copying plain runs and escaping rune by rune gives the quoted text |
| CliQuote.DecodeString | internal/bridge/cli_unicode.go:50-95 | The decoder, with its short cut for texts without escapes, reads a literal escape by escape |
| CliQuote.DecodeQuote | internal/bridge/cli_output.go:193-235 | For all bytes, decoding the quoted form gives the byte form of their code units |
| CliQuote.QuotedIsLiteral | internal/bridge/cli_output.go:193-235 | A quoted text is one JSON literal: it ends at its last byte, which is its first unescaped quote, and holds no control byte |
| CliQuote.QuoteSurvives | internal/bridge/cli_unicode.go:50-95 | Quoting then decoding gives a text back if and only if every rune of it decodes and no encoded high surrogate is directly followed by an encoded low one, which holds if and only if it came from code units (RFC 8259, section 7) |
| CliQuote.QuoteRoundTrip | internal/bridge/cli_unicode.go:50-95 | In particular every text that came from code units survives, lone surrogates included |
| CliQuote.TextsThatChange | internal/bridge/cli_unicode.go:50-95 | Two texts that do not survive: the bytes ED A0 80 ED B0 80, two surrogates that join, and the byte FF |
| EditDistance.DistanceIsReached | internal/bridge/catalog_params.go:143-161 | The distance is the cost of some sequence of insertions, deletions and substitutions |
| EditDistance.DistanceIsLeast | internal/bridge/catalog_params.go:143-161 | No edit costs less |
| EditDistance.DistanceSymmetric | internal/bridge/catalog_params.go:143-161 | The distance is symmetric |
| EditDistance.DistanceZero | internal/bridge/catalog_params.go:143-161 | The distance is 0 exactly for equal texts |
| EditDistance.TriangleInequality | internal/bridge/catalog_params.go:143-161 | The distance satisfies the triangle inequality |
| EditDistance.Compute | internal/bridge/catalog_params.go:143-161 | The two-row table computes the distance |
| EditDistance.FindNearest | internal/bridge/catalog_params.go:134-140 | The last resort is the alphabetically first declared name at the least distance below 3 |
| EditDistance.SuggestParam | internal/bridge/catalog_params.go:106-141 | A case-insensitive match, then a declared synonym, then a shared prefix, then a near spelling, each only when no earlier rule applies |
| Wire.ReadLine | internal/bridge/wire.go:144-169 | However the stream is cut into slices, a line of at most 1 MiB is read whole, exactly where a newline-terminated frame is at the front, and nothing after it is consumed; a longer one is reported |
| Wire.SkipOversizedLine | internal/bridge/wire.go:173-184 | Skips to the byte after the newline unless it was already consumed |
| Wire.ReadPast | internal/bridge/wire.go:138-184 | After an oversized line and its skip the reader is at the first byte of the next line |
| Wire.FrameOfRead | internal/bridge/wire.go:144-200 | What was read as a line or a native frame, written again, is what was there |
| Wire.ReadAllFrames | internal/bridge/wire.go:144-247 | A sequence of frames of either kind is read back as its payloads |
| Wire.Writer.Start | internal/bridge/wire.go:229-240 | A sender that was cancelled or whose payload exceeds 1 MiB changes nothing; any other waits |
| Wire.Writer.Take | internal/bridge/wire.go:248-258 | A waiting sender gives up when cancelled, goes on waiting while another sends, and otherwise takes the channel's one token |
| Wire.Writer.Write | internal/bridge/wire.go:281-296 | A sender that got the token needs no further check: each partial write continues its own frame behind whole ones |
| Wire.Writer.Finish | internal/bridge/wire.go:251-253 | Giving the token back leaves whole frames in the output unless a write failed |
| Wire.Writer.NeverInterleaved | internal/bridge/wire.go:202-298 | Lines or native frames: whatever the senders did, no two are sending, and the other side reads whole payloads in the order of their tokens, followed at most by a part of one frame |
| VisualGeometry.VisualChanges | internal/bridge/visual_baseline.go:148-164 | The count is exact and the box is the smallest that holds every differing pixel |
| VisualGeometry.AddComponents | internal/bridge/visual_baseline.go:170-181 | Every drawn component of a frame that touches the change is taken in whole, cut to the frame |
| VisualGeometry.VisualContextRect | internal/bridge/visual_baseline.go:166-187 | The crop lies in the frame, holds the changed box and every component of either frame that touches it, and the growth loop ends at the minimum size |
| VisualBaseline.CompareVisual | internal/bridge/visual_baseline.go:206-283 | Two screenshots are reported unchanged if and only if they are comparable and no pixel differs; the counted pixels and the box are those that differ; a change is reported as such exactly when it is localized and its images fit, and then every image shows every differing pixel; images stay within the inline limit, and a before image comes only with its after image |
| VisualBaseline.Registry.Create | internal/bridge/visual_baseline.go:319-339 | A reference is stored exactly when the count, per-tab and byte limits leave room |
| VisualBaseline.Registry.Complete | internal/bridge/visual_baseline.go:341-361 | A comparison succeeds only against the reference that is stored at its completion; advancing replaces it and keeps every limit |
| VisualBaseline.Registry.Respond | internal/bridge/visual_baseline.go:285-361 | A new screenshot is compared with the reference pixel by pixel and the comparison completed: the reference is dropped when the two are not comparable, and advanced only when no pixel differs or the report shows images |
| VisualBaseline.Registry.InvalidateTab | internal/bridge/visual_baseline.go:371-376 | Exactly the references of the tab go |
| VisualBaseline.ReplaceKeepsLimits | internal/bridge/visual_baseline.go:354-359 | Advancing keeps the count, per-tab and byte limits |
| Bounder.Slice | internal/bridge/mcp_results.go:69-90 | The slice has exactly the allowed units, a split pair becoming a replacement character, and a text that fits is unchanged |
| Bounder.Budget.Visit | internal/bridge/mcp_results.go:104-159 | Something is marked as left out exactly when the value does not fit in the rest of the budget; the output is what is left of the input, in its order, and its nodes and text units are what is counted |
| Bounder.Budget.VisitFields | internal/bridge/mcp_results.go:133-154 | The kept fields are fields of the object in their order, each with what is left of its value; all are kept exactly when all fit |
| Bounder.Bound | internal/bridge/mcp_results.go:97-162 | A value is returned whole exactly when it is at most 8 deep, nothing in it is wider than 100, no text exceeds its limit, nodes and text units stay within theirs, and a unit is to spare when the last node begins; otherwise what is left of it is returned and reported as truncated |
| Bounder.FitsIs | internal/bridge/mcp_results.go:104-159 | What fits step by step is what fits as a whole |

## Left out

- Daemon: entries and pending requests are values in maps keyed by id, so sharing of one record by several tables is not captured; nor are message contents, access wording, metrics and health.
- Daemon.Daemon.Route: registration, authentication and the choice among connected browsers come before it; the new request id is assumed to be unused.
- Daemon.Daemon.StorageRequest: the per-peer table it shares with setup jobs holds storage requests only; setup jobs are not modelled.
- Daemon.Daemon.Response: the outcome that the daemon reads from a response body, local errors included, is an input; work that the storage executor does before a response completes appears as a later completion step.
- DaemonWaiting.NothingGrantableWaits: after a disconnect it depends on the order of the walk; the condition is on the state it leaves (`DaemonWaiting.GrantsNothingIff`).
- DaemonRuns.CanceledSlotIsReleased: time does not pass a slot timer that is due, which stands for timers that fire on time.
- JsonEditLaws.SetLaw: the decoding and encoding of string tokens and the validity of scalars are parameters; the laws hold for keys that survive encoding.
- UpdateFeed.VerifyFeed: strict decoding, base64, Ed25519 verification, SHA-256 and the URL rules are parameters.
- Updater.Manager.StageFrom: files and directories are represented by what is read back; file modes, temporary files and the removal of a failed staging directory are not modelled.
- Updater.Manager.Run: the lock, the clock, downloads, probes and the effect of a save on disk are inputs; messages and result objects are reduced to their outcome.
- AxReport.Build: role normalization, readable text and the reading of browser properties are inputs of a node; omitted default flags of the wire form are not modelled.
- AxOrder.TreeParentsComeFirst: a special case with a plain condition; the exact condition is in `AxPaths.ParentsFirstIff`.
- AxOutline.FormatOutline: the label and state text of a line, and the cap of its indentation at 12, are not modelled.
- Telemetry.Collector.Snapshot: success and failure rates are not modelled; after the clock has gone back nothing is claimed.
- TelemetryPublic.ExtensionSnapshotSurvives: the extension's readings are taken to be those of its log; that is proved of the daemon's collector only.
- Artifact.Download: the call to the server is a function of the offset; the final delete call and decoding of the descriptor are not modelled.
- ArtifactTransfer.Transfer: file operations of the upload succeed; what a failed one does is stated by the methods of the store.
- ArtifactStore.Store.Begin: dates are numbers; the text forms of times are not modelled.
- StorageExecutor.Executor.Submit: the work of a job is its identity.
- EditDistance.SuggestParam: lower-casing and the table of synonyms are parameters, and the declared names come sorted.
- Wire.Writer.Write: the write deadline and its interruption are not modelled.
- Wire.Writer.Finish: after a failed write the output may hold part of a frame, and nothing is claimed from then on.
- Wire.ReadLine: decoding the line as JSON is not modelled.
- VisualGeometry.VisualContextRect: coordinates are real numbers, not floating-point ones.
- VisualBaseline.Registry.Create: the new handle is assumed to be unused.
- VisualBaseline.CompareVisual: the encoded size of an image is a parameter and encoding does not fail; the texts of strategy, reason and guidance are not modelled.
- VisualBaseline.Registry.Complete: PNG coding, access checks and the storage queue around the completion are not modelled.
- Bounder.Bound: the decoding of raw JSON, duplicate keys and the order of keys are settled before the walk.
- MCP tools, agent detection and registry, TOML and YAML editors, skills, proxies, recordings and replay are not part of this model.
