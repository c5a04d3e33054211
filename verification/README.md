# filewall, modelled and proved in Dafny

filewall guards files with fanotify permission events. A privileged daemon
(`filewalld`) marks the guarded directories, answers every open of a guarded
file from its policy and its learned rules, and otherwise asks the user through
a prompt helper. This project models the parts that must be right together and
proves what they guarantee over whole runs:

| modules | what they model |
|---|---|
| `FileSystem`, `Walk` | component-wise paths, a finite file system, the depth-first walk |
| `Glob`, `Policy`, `Scope` | include patterns, watches, deny-first combination, why marks are enough for the scope |
| `Marking`, `Routing`, `Coverage`, `CoverageRuns`, `SafelyNested`, `IncrementalMarks`, `NestedRoots` | the full scan, live marking from inotify events, which of several nested watches takes a new directory, the dump, and what the dump says after any run |
| `Rules`, `RuleHistory` | learned rules, their evaluation, their ids over the life of `rules.toml` |
| `UiServer`, `KeptLink`, `EventLoop`, `Learning`, `LearningRuns` | the link to the helper, the event loop, learning from answers, and what becomes of it under failing saves and reloads |
| `PromptProtocol`, `PromptOrigins`, `PromptRuns`, `EndToEnd`, `Timeouts` | the helper's worker thread and GUI as a state machine, that machine behind the daemon's link, and the timeout arithmetic |
| `ReloadProtocol`, `Reloading` | file writers, the watcher thread, the reload flag, and the loop that clears it before it loads and then marks anew |
| `Framing`, `EventBuffer`, `Escape` | message framing, the fanotify buffer, markup escaping |

`dafny verify dfyconfig.toml` checks everything.

## How to read the model

Objects whose methods update their fields are classes (`RuleStore`, `MarkSet`,
`TreeWatch`, `Server`, `Daemon`, `App`, `Worker`, `Core`, `Stream`). Their methods are
proved against functions or two-state predicates on values (`PromptOnce`,
`Serve`, `HandlesEvent`, ...), and the theorems are about those. Kernel and
socket behaviour is input: whether a mark or a watch succeeds, what a listing
shows, how an exchange with a helper ends, when a lost-event notice appears.

Assumptions of the run theorems, each of which is part of the transition
relation and not of the conclusions:

- A file-system change does not happen inside the handling of one inotify event.
  Between two events of one batch it may (`TreeWatch.OnReady`).
- In `Coverage` runs, `mark_all` and the new `TreeWatch` of a reload see the same
  file system. `TwoScansRace` says exactly what is lost when they do not.
- Whether the kernel loses an event is left open (`lost`). In fact it loses one
  only when its queue has reached its bound, which the model thereby abstracts.
- Directories are created or moved in, never removed or renamed, so a watch
  descriptor keeps its path.

Watch roots may be nested. The coverage theorems ask that nested watches agree in
the sense of `SafeNesting`, which `HonestIffSafelyNested` proves to be exactly what
is needed; only the entry-by-entry theorems of `IncrementalMarks` and
`TwoScansRace` are about roots that are not nested.

## Where the code keeps less than one might expect

Each of these is shown on a concrete run or value, and next to it stands a
lemma that says exactly when it can happen.

- A reload that finds a broken configuration clears the flag without re-marking,
  and the overflow handler only raises that flag, so a lost event can stay a
  silent gap until a reload succeeds: `CoverageRuns.FailedReloadHidesGap`,
  `NothingOwedIff`.
- A watch root that appears after the scan is neither marked nor reported until
  the next reload. The comment in `filewalld/src/config.rs` that nothing below a
  missing path can be accessed anyway holds only until the path exists:
  `CoverageRuns.LateRootIsSilent`, `SettledIsHonestIff`.
- `mark_all` and `TreeWatch::build` scan separately; a directory that appears in
  between is watched but not marked, silently: `CoverageRuns.RaceHidesDirectory`,
  `TwoScansRace`.
- A new directory is routed to the first watch that covers it, even if that one
  excludes it or something below it that a nested watch guards:
  `NestedRoots.NestedRootsHideGap`, `NestedRoots.MovedInAboveIsUnsafe`, and for the
  exact condition on the policy `SafelyNested.HonestIffSafelyNested`. The entry then
  names another watch than a full scan would: `NestedRoots.NestedEntriesDiffer`,
  `TakenEntryIff`.
- After the worker's backstop has denied, a late click on the old prompt is taken
  as the answer to the next request: `PromptRuns.BackstopBreaksLockstep`,
  `LockstepIff`.
- After a read timeout the daemon keeps the link and reads the late response as
  the answer to the next event: `KeptLink.LateReply`, `OwnReplyIff`.
- A rule whose save failed is in memory only. A later save writes it, a reload
  before that forgets it, and until one of them happens memory and disk differ
  with nothing pending: `ReloadProtocol.UnsavedRuleExample`, `NoLostReload`,
  `LearningRuns.ForgottenAnswer`, `RuleKeptIff`.
- A rule that `filewallctl` removes comes back if the daemon saves before it
  reloads: `LearningRuns.RemovedRuleReturns`, `RemovalHoldsIff`.
- The release build wraps the 64-bit id counter; the comment that ids are never
  reused holds only with room for all of them: `RuleHistory.FullCounterLosesIds`,
  `EveryViewIsHealthyIff`.

## Model

| member | source | states |
|---|---|---|
| Walk.WalkDirs | filewalld/src/main.rs:486-509 | The walk terminates on every finite tree and returns, without duplicates and whatever the listing order, exactly the root and every directory reachable from it through readable directories no one of which is excluded |
| Walk.EnterFrom | filewalld/src/main.rs:490-506 | One round of the walk finds, once each, exactly the non-excluded subdirectories of a directory, and nothing if its listing fails |
| Walk.DirsToMark | filewalld/src/treewatch.rs:186-191 | Nothing if the new directory is excluded, else exactly what is reachable from it, without duplicates |
| Walk.NewSubtreeIsPartOfFullWalk | filewalld/src/treewatch.rs:181-191 | For a new directory in a reached, readable parent, live marking finds exactly the part of the full walk that lies at or below it |
| FileSystem.ReachesSplit | filewalld/src/main.rs:486-509 | Reachability can be restarted at any directory on the way, in both directions |
| Glob.DeepIffCrossesSeparator | filewalld/src/policy.rs:78-85 | For the documented pattern language: the syntactic test for deep patterns holds iff the pattern matches some string with a separator in it |
| Glob.SingleTokens | filewalld/src/policy.rs:68-69 | Taken alone, a literal matches itself, `?` one character other than "/", `*` exactly the strings without "/", `**` every string |
| Glob.AcceptsConcat | filewalld/src/policy.rs:68-69 | A sequence of tokens matches exactly the strings that split into parts matched by its parts |
| Glob.ParseIff | filewalld/src/policy.rs:68-69 | A pattern reads as the one sequence of tokens that has its text, stars paired from the left and no wildcard taken literally |
| Policy.JoinIff | filewalld/src/policy.rs:185-193 | The string for a relative path is exactly the one that, cut at each "/", gives its names in order |
| Policy.IncludedIff | filewalld/src/policy.rs:185-193 | In scope is everything if there are no patterns, else exactly what lies at or below the root and is spelled, relative to it, by a string that some pattern matches |
| Policy.RecursiveIff | filewalld/src/policy.rs:114-117 | Marking descends iff the watch has no patterns or one of them matches some string with a separator in it |
| Scope.ShallowScopeIsFlat | filewalld/src/policy.rs:114-117 | What a watch with only shallow patterns has in scope lies directly in its root |
| Scope.MarksSufficeForScope | filewalld/src/main.rs:172-183 | Every in-scope path has its parent among the scanned directories if nothing on the way stops the walk; for a recursive watch, only if |
| Policy.FirstCovering | filewalld/src/main.rs:356 | The first watch at or below whose root the path lies, component by component, or none if there is none |
| Policy.OnlyCovering | filewalld/src/treewatch.rs:132 | With roots that are not nested, the first covering watch is the only one |
| Policy.DenyIsSticky | filewalld/src/policy.rs:39-48 | Learning any rule, or removing any batch of allow rules, leaves a combined deny a deny |
| Marking.ScanWatch | filewalld/src/main.rs:172-183 | Classifies the root; for a directory the scanned list is, without duplicates, the root alone if the watch has patterns and none of them matches a string with a separator, else everything reachable |
| Marking.ScanSetIs | filewalld/src/main.rs:172-183 | The scanned set of a watch whose patterns are all shallow is its root alone; that of any other is what can be reached |
| Marking.MarkDirs | filewalld/src/main.rs:225-240 | Records one entry for each directory, successful or not, and marks exactly those for which the kernel call succeeds |
| Marking.MarkWatch | filewalld/src/main.rs:194-251 | One watch adds exactly the entries of its scan, and nothing if its root does not resolve |
| Marking.MarkAll | filewalld/src/main.rs:191-254 | The record afterwards is that of a scan from scratch, a later watch overwriting an earlier one; the marked inodes grow by exactly those with a successful entry |
| Marking.Fanotify.Mark | filewalld/src/fanotify.rs:124-139 | Marks one inode if the kernel lets it and reports whether it did |
| Marking.BuildDump | filewalld/src/markset.rs:51-67 | One row for each recorded path, with its kind, its watch, whether that recurses, and whether it is marked; `live_marked` is none for a file, and for a directory tells whether it is watched |
| Marking.TreeWatch.Dump | filewalld/src/main.rs:302-312 | A dump request is answered from the record and the watches of this moment |
| Marking.TreeWatch.Add | filewalld/src/treewatch.rs:165-178 | Keeps all descriptors, watches the directory iff inotify lives and the call succeeds, and never gives one directory two descriptors |
| Marking.TreeWatch.Build | filewalld/src/treewatch.rs:48-81 | The watched directories are exactly those that recursive directory watches scan and that the kernel accepts, one descriptor each |
| Marking.TreeWatch.HandleEvent | filewalld/src/treewatch.rs:114-159 | One event only requests a reload, or changes nothing, or marks, records and watches exactly the non-excluded directories at or below the announced one |
| Marking.TreeWatch.OnReady | filewalld/src/treewatch.rs:100-160 | A batch handles its events one after the other, each on the file system of its moment |
| Coverage.ReMark | filewalld/src/main.rs:327-331 | `mark_all` and a new tree watch leave the record, the marks and the watches of a full mark |
| Coverage.AllMarksAt | filewalld/src/main.rs:194-243 | With roots that are not nested, a path's entry is the one its own watch gives it |
| Coverage.FullMarkKeeps | filewalld/src/main.rs:191-254 | Under a safely nested policy a full mark establishes the coverage invariant, whichever marks and watches fail |
| Coverage.CreateKeeps | filewalld/src/treewatch.rs:123-135 | Creating or moving in a tree keeps the invariant: a watched parent gets an event or a loss notice, an unwatched one is an admitted gap |
| Coverage.HandleKeepsAccount | filewalld/src/treewatch.rs:128-158 | Handling an event keeps every directory that a recorded recursive watch guards recorded, announced by another event, or below a recorded directory that is not watched, unless the root of a nested watch on the way is itself missing; nested watches are allowed to differ as far as safe nesting lets them |
| Coverage.HandleKeepsReal | filewalld/src/treewatch.rs:128-158 | Handling an event records only what exists, reports as marked only what is marked, and watches only recorded directories that the policy can lead to |
| Coverage.NextKeeps | filewalld/src/treewatch.rs:100-178 | Every step of the file system, the daemon and the reload keeps the coverage invariant, as long as the policies it loads are safely nested |
| CoverageRuns.RunKeeps | filewalld/src/treewatch.rs:100-178 | The invariant holds in every state of every run under safely nested policies |
| CoverageRuns.OwedIsRemembered | filewalld/src/treewatch.rs:118-122 | At every point of a run a lost event has its notice queued, or a reload requested, or a reload that succeeds is still to come, if one follows each failed reload that consumed a re-mark |
| CoverageRuns.NothingOwedIff | filewalld/src/main.rs:322-341 | A settled end owes no re-mark iff every failed reload that consumed one was followed by a reload that succeeded |
| CoverageRuns.SettledIsHonestIff | filewalld/src/markset.rs:46-67 | In a settled state that owes no re-mark the dump is honest iff every root of a recursive watch that is a directory now is recorded |
| CoverageRuns.NoSilentCoverageGap | filewalld/src/markset.rs:46-67 | After every run under safely nested policies, nested roots included, however calls fail, events get lost and reloads fail, if failed reloads that consumed a re-mark were made up for, once the queue is empty and no reload is requested: each directory that a recursive watch governs is in the dump or below a row with `live_marked = Some(false)`, and `fanotify = true` means really marked, iff every root of a recursive watch that is a directory now is recorded |
| CoverageRuns.HonestAfterLastReload | filewalld/src/main.rs:322-341 | The same under a premise that the log shows: the last attempt to reload succeeded, or there was none |
| CoverageRuns.RecordedMeansScanned | filewalld/src/main.rs:191-254 | Over every run, the root of a watch that lies in no other watch is recorded iff it was a directory or a regular file when the last full scan (the last successful reload, or the start) looked |
| CoverageRuns.RootsRecordedIff | filewalld/src/main.rs:191-254 | With roots that are not nested: every root that is a directory now is recorded iff every such root was a directory when the last full scan looked |
| SafelyNested.HonestIffSafelyNested | filewalld/src/treewatch.rs:132-138 | For every policy: in all its runs that make up for their losses and end settled, the dump is honest iff the roots are recorded, if and only if the policy is safely nested: whenever a recursive watch guards a directory, and a new tree holding it goes to another watch that walks up to its parent, that watch does not exclude it |
| SafelyNested.UnsafeIsSilent | filewalld/src/treewatch.rs:132-138 | For every policy that is not: a run without any failure or loss, with all roots recorded, whose dump is silently incomplete |
| Routing.NonNestedIsSafe | filewalld/src/treewatch.rs:132 | Policies without nested roots are safely nested |
| Routing.WalkedOrRoot | filewalld/src/treewatch.rs:132-138 | Under safe nesting, what one watch guards below a new directory is walked by the watch that takes it, or lies at or below the root of a third one at which that walk stops |
| CoverageRuns.LateRootIsSilent | filewalld/src/config.rs:142-147 | A run without loss or failure in which a watch root appears after the scan and nothing at all is reported |
| CoverageRuns.FailedReloadHidesGap | filewalld/src/main.rs:322-341 | A run in which a reload that fails after an overflow leaves a governed directory silently missing |
| CoverageRuns.TwoScansRace | filewalld/src/main.rs:329-331 | With two separate scans and every watch placed, all governed directories are reported iff every one was already reachable from a root directory in the first scan |
| CoverageRuns.RaceHidesDirectory | filewalld/src/main.rs:329-331 | A state after two such scans, all calls having succeeded, whose dump is silently incomplete |
| NestedRoots.NestedRootsHideGap | filewalld/src/treewatch.rs:132-134 | With nested roots, a run without any failure or loss whose dump is silently incomplete |
| NestedRoots.NestedIsUnsafe | filewalld/src/treewatch.rs:132-134 | The policy of that run is not safely nested |
| NestedRoots.MovedInAboveIsUnsafe | filewalld/src/treewatch.rs:132-138 | Nor is one whose watches agree below both roots, but whose outer watch excludes a directory of the inner one and takes a tree that is moved in above both |
| NestedRoots.TakenEntryIff | filewalld/src/treewatch.rs:132-158 | The entry that live marking gives a new directory is the one of a full scan iff the first watch that covers the announced directory and the last one that scans this directory have the same root and both recurse or neither does |
| NestedRoots.NestedEntriesDiffer | filewalld/src/treewatch.rs:132-158 | Two nested watches that exclude nothing, for which they are not |
| IncrementalMarks.HandleStaysExact | filewalld/src/treewatch.rs:114-159 | If calls succeed, live marking gives each directory the entry a full scan would give it, and watches it |
| IncrementalMarks.IncrementalEqualsFull | filewalld/src/treewatch.rs:114-159 | After every run without loss or failure under roots that are not nested, in which the directories that recursive watches track can be listed, and which drains its queue: the record equals that of a fresh `mark_all`, entry by entry, iff no root appeared since the last scan; the watched directories are exactly those recorded under recursive watches |
| IncrementalMarks.SmoothDumpShowsNoGap | filewalld/src/markset.rs:51-67 | At every point of such a run, each dump row is really marked, names a watch root at or above it, and is live iff it is a directory under a recursive watch |
| Rules.VerdictIgnoresOrder | filewall-rules/src/lib.rs:155-171 | The verdict does not depend on the order of the rules |
| Rules.RuleStore.Evaluate | filewall-rules/src/lib.rs:156-171 | The loop with early return computes: deny iff some rule that matches denies, none iff no rule matches, else allow |
| Rules.RuleStore.AllocId | filewall-rules/src/lib.rs:128-132 | Gives the counter, 1 if it is 0, and leaves the counter at one more modulo 2^64 |
| Rules.RuleStore.Push | filewall-rules/src/lib.rs:150-153 | Appends the rule behind all others, under the allocated id, and changes no other rule |
| Rules.RuleStore.HighestId | filewall-rules/src/lib.rs:140 | The maximum of all ids, 0 if there are none |
| Rules.RuleStore.BackfillIds | filewall-rules/src/lib.rs:139-148 | Stamping in place computes the recursive specification of a load |
| Rules.RuleStore.RemoveIds | filewallctl/src/main.rs:56-72 | Removes, keeps and reports exactly as the recursive specifications say, each in the original order |
| Rules.RemovalSplits | filewallctl/src/main.rs:56-72 | Every rule is kept or taken, by its id alone, none is lost or duplicated |
| Rules.RemovalKeepsOrder | filewallctl/src/main.rs:56-72 | Removal from one list behind another is removal from each, in that order, for what is kept and for what is taken |
| Rules.RemovalOfOne | filewallctl/src/main.rs:56-72 | One rule is taken if its id was asked for, else kept |
| Rules.MissingNameNothing | filewallctl/src/main.rs:66-71 | The reported ids are exactly those asked for that no rule has as its id |
| Rules.MissingKeepsOrder | filewallctl/src/main.rs:66-71 | Missing ids are reported in the order in which, and as often as, they were asked for |
| RuleHistory.BackfillHeals | filewall-rules/src/lib.rs:134-148 | A load gives ids to exactly the rules without one, keeps order and everything else, and ends with distinct ids below the counter |
| RuleHistory.BackfillHealsIff | filewall-rules/src/lib.rs:134-148 | For every file: the loaded rules have distinct nonzero ids below the counter iff the assigned ids were distinct and the counter has room for all ids to be handed out |
| RuleHistory.BackfillAt | filewall-rules/src/lib.rs:139-148 | For every file, wrapping included: each rule keeps its id or gets the first one handed out plus the number of rules without an id before it, and the counter ends behind all of them |
| RuleHistory.UnreadableIsEmpty | filewall-rules/src/lib.rs:88-106 | A missing or corrupt file reads as no rules, and the first rule learned then has id 1 |
| RuleHistory.BackfillIdempotent | filewall-rules/src/lib.rs:134-148 | Loading what was loaded and saved changes nothing, so two processes agree |
| RuleHistory.ApplySeen | filewallctl/src/main.rs:98-121 | What other processes see of one learn or remove: old rules unchanged, a new one under an id that was free |
| RuleHistory.StableIds | filewall-rules/src/lib.rs:31-34 | Over any run of learn, remove and list, two views never use one id for two rules, and the counter never goes back |
| RuleHistory.LearnedIdIsFresh | filewall-rules/src/lib.rs:127-132 | A newly learned rule gets an id above all ids ever seen, even of rules long removed |
| RuleHistory.EveryViewIsHealthyIff | filewall-rules/src/lib.rs:127-153 | For every file and run: all views are healthy iff the file has no twins and its counter has room for every stamped and every learned rule |
| RuleHistory.FullCounterLosesIds | filewall-rules/src/lib.rs:139-148 | A file with distinct ids for which a load leaves a rule without an id |
| UiServer.Server.Accept | filewalld/src/server.rs:55-71 | Takes the next waiting helper, if any; only an error other than would-block is reported |
| UiServer.Server.Prompt | filewalld/src/server.rs:149-153 | One exchange on the held link, which stays held |
| UiServer.Server.PromptRecovering | filewalld/src/server.rs:87-124 | Computes the specification of one recovering prompt; a held link whose exchange does not end in one of the five disconnect errors is kept and its reply returned, any other is replaced by one retry |
| UiServer.RecoveryIsBounded | filewalld/src/server.rs:83-124 | At most two attempts; the link survives an answer and a timeout and is dropped after a final disconnect or without a helper |
| UiServer.HeldLinkFate | filewalld/src/server.rs:103-114 | The held link is given up, and a second try made, iff its exchange fails with broken pipe, unexpected end of file, connection reset, connection aborted or not connected; any other reply is returned, the link kept, and no waiting helper taken |
| UiServer.NoLinkFate | filewalld/src/server.rs:55-71 | Without a link the next waiting helper is taken and treated like a held one; a failing accept is returned unless it would block; if nobody waits, nothing is tried |
| UiServer.RetryFate | filewalld/src/server.rs:115-124 | The second try returns the reply of the next waiting helper, whose link is kept unless it fails with one of those five errors |
| UiServer.RecoveryBound | filewalld/src/server.rs:87-138 | With d dead links ahead of a helper that answers, exactly floor(d/2) calls fail and the next returns the answer |
| EventLoop.Daemon.AskUser | filewalld/src/main.rs:385-455 | Prompts once, changes the rules only for "Allow always" and "Deny always", allows only for the two allowing answers, denies on every error |
| EventLoop.Daemon.Handle | filewalld/src/main.rs:343-468 | One event: exactly one response, and the state that the specification of serving gives |
| EventLoop.Daemon.HandleBatch | filewalld/src/main.rs:343-468 | A batch appends the specified responses and changes nothing else but rules and link |
| EventLoop.OneResponseEach | filewalld/src/main.rs:343-468 | Each event of a batch gets exactly one response, in order, decided in the state that serving the earlier events one by one has left |
| Learning.AnswersAreFailClosed | filewalld/src/main.rs:343-456 | In every state of the loop: allowed iff out of scope, or no deny applies and the watch, a rule about this program, path and directory, or the reply read for this event allows; every prompt error denies |
| Learning.JudgedByItsWatch | filewalld/src/policy.rs:171-173 | An open of a path at or below the root of exactly one watch, neither excluded nor left out by it, is judged by that watch: its list of programs, its default action, and the answer if it prompts |
| Learning.AskedIff | filewalld/src/main.rs:356-388 | The user is asked iff the access is in scope of a watch that does not list the program and prompts by default, and no learned rule is about it |
| Learning.RememberedIff | filewalld/src/main.rs:418-434 | Serving changes the store iff the user was asked and answered "Allow always" or "Deny always"; the link only if the user was asked; the policy never |
| Learning.PromptShowsAccess | filewalld/src/main.rs:391-410 | The prompt shows the access's pid, program, command line, directory and path, and as scope of an "Always" answer the watch's root or the path itself, pinned or not, as the watch is configured |
| KeptLink.OwnReplyIff | filewalld/src/server.rs:96-107 | The reply read for an event is the answer to that event iff no earlier exchange on the link timed out; each timeout puts all later replies one behind |
| KeptLink.LateReply | filewalld/src/server.rs:96-107 | A run in which the answer to the first question is read as the answer to the second |
| Learning.AskedMeansUndecided | filewalld/src/main.rs:380-388 | A question is only asked on a covered path that no learned rule matches |
| Learning.ShownScopeIsPersisted | filewalld/src/main.rs:391-428 | For all accesses, the persisted rule matches iff program, object or tree, and pinned directory are those the prompt showed; it denies for "Deny always" and allows for "Allow always", and bears a fresh id and the time of the access |
| Learning.LearningSettles | filewalld/src/main.rs:420-434 | While a learned rule is stored, whatever else changes, its access is never asked about again, and under a deny rule is allowed only if out of scope |
| LearningRuns.RuleKeptIff | filewalld/src/main.rs:327-328 | Over every run of served accesses, working or failing saves, removals, edits of the file and reloads, a rule stays in memory iff each reload finds it in the file |
| LearningRuns.AlwaysMeansAlways | filewalld/src/main.rs:418-434 | After an "Always" answer the same access is settled without asking over every such run in which each reload finds the rule, and after "Deny always" is never allowed while in scope |
| LearningRuns.SavedInTimeIsHeld | filewalld/src/main.rs:425-430 | Each reload finds the rule if some save works before the first reload and from then on nobody removes the rule by its id, edits it away, or damages or deletes the file |
| LearningRuns.AnswerIsHeld | filewalld/src/main.rs:425-430 | If the save of the answer works, loading the file yields the rule, with its id |
| LearningRuns.SavedAnswerIsForGood | filewalld/src/main.rs:418-434 | If the save of the answer works and nobody removes, edits away or damages the rule in the file, then over every run, with any reloads and any later failing saves, the access is never asked about again |
| LearningRuns.UnsavedAnswerIsAskedAgain | filewalld/src/main.rs:426-427 | When memory and file agree and the save of the answer fails, the next reload forgets the rule and the same access is asked about again |
| LearningRuns.ForgottenAnswer | filewalld/src/main.rs:426-427 | Such a run, with concrete watch, access and answer |
| LearningRuns.FoundAtReloadIff | filewalld/src/main.rs:425-430 | If the file does not hold a rule that memory holds, and nobody else edits it away or removes it: the next reload finds it iff some save of the daemon before it works or somebody writes the file |
| LearningRuns.RemovalHoldsIff | filewallctl/src/main.rs:98-121 | Removing a rule by its id takes it from the file, and if nobody else edits or removes it, the next reload forgets it iff no save of the daemon before that reload works |
| LearningRuns.RemovalWritesIff | filewallctl/src/main.rs:98-121 | A removal writes the file, and then exactly the rules it keeps, iff it can be saved and some rule in the file has one of the ids |
| LearningRuns.RemovedRuleReturns | filewalld/src/main.rs:425-430 | A removed rule that is in memory after the reload, because another answer was saved in between |
| LearningRuns.NoTwinsEver | filewall-rules/src/lib.rs:150-153 | Over every such run neither memory nor file comes to hold two rules for the same program, object, kind and directory, although nothing removes duplicates, unless somebody writes such a file by hand |
| PromptProtocol.App.ResolvePending | filewall-ui-iced/src/main.rs:161-172 | Sends a decision only for a pending prompt, which it takes |
| PromptProtocol.App.Process | filewall-ui-iced/src/main.rs:174-231 | Each message changes the GUI state as the specification says; a click on a pending prompt resolves it with the clicked decision, which goes to the worker |
| PromptProtocol.Worker.ReadRequest | filewall-ui-iced/src/worker.rs:63-70 | Takes the next request and notes its timeout, or the fallback for 0 |
| PromptProtocol.Worker.Drain | filewall-ui-iced/src/worker.rs:100-103 | One round of draining, or its end when the channel is empty |
| PromptProtocol.Worker.SendRequest | filewall-ui-iced/src/worker.rs:105-107 | Puts the request behind all earlier messages |
| PromptProtocol.Worker.FinishWait | filewall-ui-iced/src/worker.rs:109-117 | Answers with the oldest decision, or denies if there is none |
| PromptProtocol.Worker.DrainAll | filewall-ui-iced/src/worker.rs:100-103 | The drain loop terminates whatever the GUI does meanwhile, is a run of the protocol, and ends with the channel found empty |
| PromptProtocol.Worker.ResolveRequest | filewall-ui-iced/src/worker.rs:63-118 | Read, drain, send, wait and respond, with the GUI acting before each of them, is a run of the protocol that takes one request and gives one response |
| PromptOrigins.StepResolvesIff | filewall-ui-iced/src/main.rs:161-231 | Exactly when a step resolves a prompt, and how: a click with the clicked decision, the deny key, a tick at or after the deadline and the next prompt with a one-time denial; the decision goes to the worker once the GUI knows it |
| PromptOrigins.OriginOfResolution | filewall-ui-iced/src/main.rs:157-231 | Over every run: each resolution was made by one such step while its request was the pending prompt |
| PromptOrigins.PendingWasShown | filewall-ui-iced/src/main.rs:189-206 | Over every run: the deadline of the pending prompt is the time at which it was shown plus the timeout of its request |
| PromptOrigins.ExpiredIsLate | filewall-ui-iced/src/main.rs:211-228 | Over every run: a prompt expires only when its request's timeout has passed since it was shown |
| PromptRuns.StepKeepsPrompts | filewall-ui-iced/src/main.rs:174-231 | No step loses, repeats or reorders a prompt; only sending adds one |
| PromptRuns.AllowsAreClicks | filewall-ui-iced/src/main.rs:157-172 | In every run, a response other than a one-time denial, so each that allows, is the decision of a click made while the prompt it came from was shown, and no two responses use one click |
| PromptRuns.ResolvedInOrder | filewall-ui-iced/src/main.rs:157-172 | In every run the i-th resolution is that of the i-th request: none is resolved twice, skipped, or out of order |
| PromptRuns.StepKeepsTally | filewall-ui-iced/src/worker.rs:88-118 | Every step, backstop included, keeps: the next decision the worker takes is that on the oldest prompt left over when its last drain ended |
| PromptRuns.AnswersOldestPrompt | filewall-ui-iced/src/worker.rs:57-118 | In every run the k-th response is the backstop's own denial, or the decision on the oldest of the prompts that were pending or in the mailbox when the drain for request k ended, counting k itself |
| PromptRuns.ResponseIsMade | filewall-ui-iced/src/worker.rs:57-118 | And that decision is the one that a click on that prompt, its dismissal, its deadline or its replacement made while it was shown |
| PromptRuns.LockstepIff | filewall-ui-iced/src/worker.rs:100-107 | In every run, each response that is a decision is the one made on its own request iff the drain for that request ended with no prompt pending and none in the mailbox |
| PromptRuns.CleanDrainsKeepLockstep | filewall-ui-iced/src/worker.rs:100-118 | If all drains end like that, backstops or not, at most one request is outstanding and each response is the decision on its own request or the backstop's denial |
| PromptRuns.PromptLockstep | filewall-ui-iced/src/worker.rs:57-118 | In every run without a backstop no drain leaves anything over, so at most one request is outstanding and the k-th response is the decision made while the k-th request was pending |
| PromptRuns.BackstopBreaksLockstep | filewall-ui-iced/src/worker.rs:109-115 | A run in which, after a backstop, a late click answers the next request |
| EndToEnd.OriginOfReply | filewalld/src/server.rs:96-107 | Over every run of the helper and every use of the daemon's link, the reply read in an exchange is the backstop's denial, or the decision made on the request as many places earlier as there were timeouts on the link and prompts left over by the drain of that response |
| EndToEnd.OwnDecisionIff | filewall-ui-iced/src/worker.rs:57-118 | A decision read for an event is the one made on that event's own prompt iff no earlier exchange on the link timed out and the drain of its response left nothing over; it is then what the user clicked there, or a one-time denial |
| Timeouts.TimeoutsAreOrdered | filewalld/src/main.rs:77-83 | For all 64-bit values: the helper's deadline is below the daemon's timeout iff at least 3 seconds are configured, deadline plus backstop iff at least 5; the deadline is always below the backstop |
| Timeouts.TimeoutsAre | filewalld/src/main.rs:77-83 | For all 64-bit values: the helper has 2 seconds up to 7 configured ones, 5 less than configured from there to 4294972, and 2^32 - 1 milliseconds beyond; the backstop has 2 seconds more; the daemon waits as long as configured |
| ReloadProtocol.HandleFileEvents | filewalld/src/watcher.rs:73-81 | The flag is raised iff an event names the configuration or the rules file, and never cleared |
| ReloadProtocol.BatchIsHandled | filewalld/src/watcher.rs:73-81 | The same of the watcher's steps in the protocol, which change nothing else |
| ReloadProtocol.HangupReloads | filewalld/src/main.rs:44-46 | After a hangup signal the next pass of the loop loads both files if the configuration is good |
| ReloadProtocol.SaveReachesDisk | filewalld/src/main.rs:425-426 | After a save that works, memory and a load of the file hold the old rules and behind them the new one |
| Reloading.Core.ReloadIfRequested | filewalld/src/main.rs:322-341 | The block is a run of the reload protocol; if the flag was set and the configuration is good, policy and rules are replaced and everything is marked and watched anew, else only the flag changes |
| ReloadProtocol.ReloadBlock | filewalld/src/main.rs:322-341 | Uninterrupted, the block clears the flag, and loads both files iff the flag was set and the configuration is good |
| ReloadProtocol.StepLosesNothing | filewalld/src/watcher.rs:64-82 | Every step of writers, watcher and loop keeps: a change is pending, the flag is set, a load is under way, or memory agrees with disk |
| ReloadProtocol.NoLostReload | filewalld/src/main.rs:322-341 | Whatever the interleaving and however often saves fail: once nothing is pending, the loop serves, and the configuration on disk is good, policy and rules in memory are those a load gives iff every failed save was followed by a load of the rules or a save that worked |
| ReloadProtocol.ClearingAfterLoadingLoses | filewalld/src/main.rs:322 | Why the flag is cleared first: cleared after the loads, a change reported in between is lost |
| ReloadProtocol.UnsavedRuleIsForgotten | filewalld/src/main.rs:425-427 | In every settled state a learned rule whose save fails leaves memory and disk apart with nothing pending |
| ReloadProtocol.UnsavedRuleExample | filewalld/src/main.rs:425-427 | Such a state and what memory and disk hold afterwards |
| Framing.Stream.WriteMessage | filewall-proto/src/lib.rs:119-131 | Appends one frame iff the body is within the cap, else changes nothing and reports invalid data |
| Framing.Stream.ReadMessage | filewall-proto/src/lib.rs:137-147 | Computes the specification of a read and leaves the stream behind the frame |
| Framing.BigEndianRoundTrip | filewall-proto/src/lib.rs:128 | The length survives encoding and decoding |
| Framing.BigEndianIsOnto | filewall-proto/src/lib.rs:140 | Every four bytes are the encoding of what they decode to |
| Framing.BigEndianIs | filewall-proto/src/lib.rs:128 | The four bytes are those of the length, the one that counts most first |
| Framing.ReadInvertsFrame | filewall-proto/src/lib.rs:137-147 | A read yields a body and a rest iff the stream is the frame of that body, within the cap, followed by that rest |
| Framing.ReadFailsIff | filewall-proto/src/lib.rs:137-147 | A read is refused as invalid iff four bytes are there and declare more than the cap, and ends early iff there are fewer than four, or fewer than they declare |
| Framing.CutFrameIsEof | filewall-proto/src/lib.rs:136-145 | Every strict prefix of a frame is an early end, never a message |
| Framing.FramesRoundTrip | filewall-proto/src/lib.rs:119-147 | Reading k times from k frames yields the k messages and leaves the next frame boundary |
| EventBuffer.ReadInfos | filewalld/src/fanotify.rs:170-182 | The inner loop terminates and computes the recursive specification |
| EventBuffer.ReadReady | filewalld/src/fanotify.rs:158-202 | The outer loop terminates and computes the recursive specification |
| EventBuffer.SlackPreventsOverrun | filewalld/src/fanotify.rs:172-177 | Whatever the bytes, the parser stays inside a buffer with four bytes behind the data |
| EventBuffer.ParserInvertsLayout | filewalld/src/fanotify.rs:146-202 | For every sequence of well-formed records the parser returns one event each, in order, with mask, pid, fd and the last pidfd (none if negative or absent), and stays inside the data, whatever lies behind it |
| EventBuffer.BrokenTailIsDropped | filewalld/src/fanotify.rs:161-168 | Behind well-formed records, a rest that is too short, or declares too small a length or one beyond the data, costs none of their events and adds none |
| EventBuffer.ZeroLengthEnds | filewalld/src/fanotify.rs:172-182 | An info record of length 0 ends the info records of its event; the last pidfd before it counts |
| EventBuffer.EventByBytes | filewalld/src/fanotify.rs:38-54 | For all values of the bytes: where each field of an event with one pidfd record stands, lowest byte first |
| Escape.PassesAreOnePass | filewall-ui/src/main.rs:20-24 | The three whole-string passes are one per-character map |
| Escape.EscapeDistributes | filewall-ui/src/main.rs:20-24 | Escaping distributes over concatenation |
| Escape.EscapeOfOne | filewall-ui/src/main.rs:20-24 | The three characters become `&amp;`, `&lt;` and `&gt;`, every other one itself |
| Escape.EscapeIsInvertible | filewall-ui/src/main.rs:17-24 | A text decodes to a string iff it is the escape of that string |
| Escape.EscapeIsInjective | filewall-ui/src/main.rs:17-24 | Different strings have different escapes |
| Escape.EscapeHasNoMarkup | filewall-ui/src/main.rs:17-24 | The escape has no raw angle bracket, and each ampersand starts one of the three entities of section 4.6 of XML 1.0 |

## Left out

Contracts that are weaker than an unconditional reading:

- CoverageRuns.NoSilentCoverageGap: removal and renaming of directories are not modelled. With nested roots, "recorded" may also mean that an outer watch has taken the root since the last scan; `RecordedMeansScanned` is about outermost roots.
- IncrementalMarks.IncrementalEqualsFull: roots are not nested, since otherwise it is false of the code even when nothing is excluded (`NestedEntriesDiffer`, `TakenEntryIff`); removal and renaming of directories are not modelled, because a descriptor would then need an inode identity.
- RuleHistory.StableIds: each load, change and save is one step, so the daemon is taken to hold what it last loaded; two saves that interleave, or a lost or corrupt file, can reuse ids. `LearningRuns` does separate memory and file, but makes no claim about ids.
- ReloadProtocol.NoLostReload: the watcher lives, its own queue does not overflow, and the configuration is not edited between its first load and the start of the watcher.
- PromptRuns.PromptLockstep: one connection and the iced helper; the yad helper, which ignores the deadline, is not modelled.
- KeptLink.OwnReplyIff: one link to a helper that answers every request once and in order; a response that is cut short by the timeout is not modelled.
- Learning.AnswersAreFailClosed: speaks of the reply that is read for an event, which `EndToEnd` relates to the prompt whose decision it is.
- EventBuffer.ReadReady: descriptors are raw numbers; ownership and closing, and the special case of a record without a file descriptor, are not modelled.
- Glob.DeepIffCrossesSeparator: the matcher knows literals, `?`, `*` and `**` as any string, wherever it stands; character classes, alternation, escapes and special rules for `**` inside or next to a component are not modelled. A matcher that lets `**` cross separators in fewer places keeps the direction that marking relies on: a shallow pattern never crosses one.

Parts of the repository and of its environment that are not modelled:

- Removal, renaming and replacement of marked directories, and events for a descriptor that is gone.
- A file-system change inside the handling of one event, and single directory entries that cannot be read (a listing succeeds or fails as a whole).
- `TreeWatch::on_ready` marks, records and watches directory by directory; the model marks all and then watches all, which ends in the same state.
- Order of the dump rows, counters and log messages.
- `exclude` and `allow` globs: arbitrary predicates.
- JSON and TOML: a message is its body, a rules file is its value or unparseable; a rule's creation time is input.
- Resolving pid, program, directory and command line of an event, including the fallback path `<unknown>`, which is only named.
- `poll`, signals and the control socket beyond the dump; pidfile, status, table rendering and argument parsing of `filewallctl`.
- Closing of the channel between worker and GUI, failing writes on the worker's socket (the response counts as written), windows, theme, wording and the demo mode.
- A configured prompt timeout of 0, which the socket refuses, so that every accept fails.
- Wall-clock time, except as numbers in the timeout arithmetic and as the time passed to the GUI.
- Failure of the response to the kernel, which the daemon only logs.
