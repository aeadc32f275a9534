# Models of the recording pruner, the dev-server restarts, the migration kit and its neighbours

These Dafny modules model seven parts of the platform and prove what each of them promises. Code that is
expressions is modelled as functions; code that loops or updates state is modelled as methods and classes, each
proved equal to the function whose laws are then proved.

**Recording pruner** (`platform/shared/app-recording.ts`): `Cuts`, `Recording`, `Pruner`, `PrunerLaws`,
`VideoPass`, `Decoding`, `Playback`. Merged cuts are the canonical form of what they hide. The trailing pass
drops exactly what a cut up to the data's end swallows, and the video pass keeps the fewest chunks that play and
decode. Every chunk that plays decodes, in any decoder, to what it decoded to before. Pruning twice prunes once,
whichever guards fire. The documented claim that not one rendered frame changes is too strong:
`Playback.PictureUntouchedExactlyWhen` says when the picture on screen is untouched, and
`Playback.ResumeGapShowsEarlierFrame` is a recording where it is not.

**Dev-server restarts** (`platform/backend/tsdown.config.ts`): `DevServer` is the step relation over builds,
module loads, child exits and timers, and `DevServerLaws` what holds of every run; `RestartLaws` says what a
restart does, from its turn in the queue to its retries; `DevServerHandle` is the process-global object whose
methods take those steps. No server is orphaned over any interleaving and the queue drains. The comment that the
last good build still spawns holds exactly when that build belongs to the current module
(`DevServerLaws.LastBuildWinsExactlyWhenCurrent`); `DevServerLaws.StaleCallbackStrandsServer` is a run in which
a stale callback leaves no server.

**Frontmatter** (`migration-kit/scripts/frontmatter.py`): `Surrogates`, `PyText`, `JsonText`, `PyJson`,
`JsonStrings`, `Frontmatter`, `FrontmatterScan`, `FrontmatterGrammar`, `FrontmatterLaws`, `FrontmatterValues`,
`StrayFences`, `Renaming`. The grammar says of every line of a block what it does, on its text alone. Texts are
sequences of code points, lone surrogates included. Printing and parsing are inverse up to joining surrogate
pairs. A rename keeps its promises on all text without `"\r\r\n"` and all names without a surrogate pair. Beyond
that they can fail, because the parser and the rename each replace `"\r\n"` once: `Renaming.RenameExactlyWhen`
gives the exact condition and `Renaming.DoubledReturnMovesTheFence` an input that fails.

**Plan runner** (`migration-kit/scripts/apply.py`): `Migration`, `Planning`, `MigrationLaws`, `AppliedPlan`,
`MigrationRun`, `SkillNames`. The remote instance is a store that only grows, listed in any stable order. A
second run of a plan is a no-op exactly when every skill ended up under the name it is searched by, which the
rename laws give for all names that come from JSON; and no sequence of failing or half-failing runs of such a
plan makes two entities with one identity.

**Inventory and inline metadata** (`migration-kit/scripts/contracts.py`, `migration-kit/scripts/discover.py`):
`Inventory`, `InventoryLaws`, `InlineMetadata`, `InlineMetadataLaws`, `InlineMetadataScan`. Both are proved
inverse to their writers, and what they make of any other input is stated exactly.

**Scanners** (`platform/shared/handlebars-expressions.ts`, `platform/shared/mcp-tool-error.ts`): `Handlebars`,
`HandlebarsLaws`, `HandlebarsScan`, `JsonObjectEnd`, `JsonScanLaws`. What each finds is stated on the text
alone. Escaping and scanning again agree exactly when every escaped expression has two braces and holds no
further opening that a scan would look into, bar one that never closes with nothing left behind it. The JSON
scan finds the end of every object, but it counts code points and its caller cuts code units, so an object's
text comes back exactly when it holds no surrogate pair.

**Credentials and grants** (`platform/shared/identity-provider.ts`, `platform/shared/access-control.ts`):
`Credentials`, `CredentialObjects`, `Grants`, `GrantLaws`. Redacting and carrying forward obey lens laws over
any list of paths none of which leads to another; the laws are proved of values, and the code, which edits a
clone in place, is proved on objects to compute those values. The grant check is a preorder, no sequence of
grants escalates, and it stays so under what admins are implied to hold exactly when the universe lists the
admin action. The rule's comment says that UI-behavior resources are exempt; the code exempts three of the four
(`chatExpandToolCalls` is checked), and the model follows the code.

`Wrappers` and `JsStrings` hold what several of these modules share.

## Model

| member | source | states |
|---|---|---|
| Cuts.SortProperties | platform/shared/app-recording.ts:941-943 | the sort of the valid cuts is ordered and a permutation |
| Cuts.NormalizedProperties | platform/shared/app-recording.ts:940-954 | the merged cuts are strictly separated and hide exactly the moments some stored cut hides |
| Cuts.NormalFormUnique | platform/shared/app-recording.ts:940-954 | strictly separated ranges are determined by what they hide |
| Cuts.SameCoverSameNormalForm | platform/shared/app-recording.ts:933-954 | two lists of cuts merge alike if and only if they hide the same moments |
| Cuts.NormalizedIdempotent | platform/shared/app-recording.ts:940-954 | merging merged cuts changes nothing |
| Cuts.SortedCuts | platform/shared/app-recording.ts:941-943 | the filtered and sorted records, as their values |
| Cuts.Merged | platform/shared/app-recording.ts:944-953 | the loop that widens the last merged record in place computes the merge and touches only its own copies |
| Cuts.NormalizeCuts | platform/shared/app-recording.ts:940-954 | the result is the normal form, in fresh records, and the input records are as they were |
| Recording.DataEndIsMaximum | platform/shared/app-recording.ts:1126-1140 | the data end is the greatest of zero, the duration and every event, segment and message time |
| Recording.DataEndOf | platform/shared/app-recording.ts:1131-1140 | the three loops compute that maximum |
| Recording.SelectDataEnd | platform/shared/app-recording.ts:1034-1037 | dropping events can only bring the data end in, never out |
| Pruner.PruneCutFrame | platform/shared/app-recording.ts:956-970 | pruning returns a subsequence of the events, the same data end, and everything else unchanged |
| Pruner.DroppedExactlyWhenAnchoredInside | platform/shared/app-recording.ts:1014-1031 | an event leaves with the trim if and only if it is no viewport event and all its anchors lie inside the trim |
| Pruner.PruneTrailingKeepsClock | platform/shared/app-recording.ts:972-1042 | the trailing pass leaves every viewport event and every anchor outside the trim, in order |
| Pruner.TrailingAfterVideo | platform/shared/app-recording.ts:1001-1042 | a second trailing pass drops nothing, even with the video pass in between |
| Pruner.KeptStaysNeeded | platform/shared/app-recording.ts:1091-1114 | every chunk kept is still needed among the events kept |
| Pruner.VideoTwice | platform/shared/app-recording.ts:1071-1124 | the video pass is idempotent |
| Pruner.PruneCutIdempotent | platform/shared/app-recording.ts:968-970 | pruning is idempotent, whichever of the two guards fire |
| Pruner.ChunkKeepByCover | platform/shared/app-recording.ts:1078-1079 | what the video pass keeps depends only on which moments are hidden |
| PrunerLaws.NoTrimNoPruning | platform/shared/app-recording.ts:932-1012 | where every cut that starts before the data's end stops more than 25 ms short of it, the trailing pass changes nothing |
| PrunerLaws.TrimDropsExactly | platform/shared/app-recording.ts:972-1042 | where the cuts hide a stretch up to within 25 ms of the data's end, exactly the non-viewport events with all anchors in it go, unless the data's end would move |
| PrunerLaws.TrimOrNone | platform/shared/app-recording.ts:1009-1013 | one of the two is always the case |
| PrunerLaws.VideoKeepsFewest | platform/shared/app-recording.ts:1044-1124 | the video pass keeps the fewest events with which everything in view is there and no delta lacks the chunk it builds on |
| VideoPass.KeepSet | platform/shared/app-recording.ts:1092-1109 | the backward walks keep chunk j if and only if some chunk in view at or after it has no keyframe in between |
| VideoPass.Streams | platform/shared/app-recording.ts:1081-1089 | the lists per stream hold each chunk once, in order |
| VideoPass.NeededTransfers | platform/shared/app-recording.ts:1081-1109 | needed in a stream's own list is needed among all the events |
| VideoPass.DroppedChunks | platform/shared/app-recording.ts:1091-1114 | the dropped set is exactly the chunks that no chunk in view decodes through |
| VideoPass.PruneTrailingTrimEvents | platform/shared/app-recording.ts:1001-1042 | the code with its early returns computes the trailing pass |
| VideoPass.PruneCutVideoChunks | platform/shared/app-recording.ts:1071-1124 | the code with its early returns and guard computes the video pass |
| VideoPass.PruneCutEvents | platform/shared/app-recording.ts:968-970 | both passes in order, and the cut records unchanged |
| VideoPass.NoCutsNoPruning | platform/shared/app-recording.ts:1072-1073 | without cuts nothing is dropped |
| Decoding.KeptChunkDecodesAlike | platform/shared/app-recording.ts:1052-1063 | every kept chunk decodes, in any decoder, to the picture it always did |
| Playback.VideoPassDecodesAlike | platform/shared/app-recording.ts:1071-1124 | the same for the whole video pass, its guard included |
| Playback.TrailingKeepsHead | platform/shared/app-recording.ts:1014-1041 | the trailing pass leaves the events up to the trim's start as they stand |
| Playback.PrunedChunkDecodesAlike | platform/shared/app-recording.ts:956-970 | after both passes every chunk that plays, and whose stream has nothing inside the trailing trim before it, decodes as it did |
| Playback.InOrderIsClear | platform/shared/app-recording.ts:956-970 | with event times in order those are all the chunks that play at or before the trim |
| Playback.PictureUntouchedExactlyWhen | platform/shared/app-recording.ts:1044-1124 | the picture after any number of applied events is untouched if and only if the data-end guard kept the recording whole or the stream's latest event is no dropped chunk |
| Playback.PrunedFrontIsFront | platform/shared/app-recording.ts:1116-1123 | what is left of the first events is how the pruned recording begins |
| Playback.ResumeGapShowsEarlierFrame | platform/shared/app-recording.ts:1044-1050 | a whole recording with its pruned events, where the frame shown past a cut is not the original's |
| DevServerLaws.SpawnIsAlone | platform/backend/tsdown.config.ts:158-190 | at each spawn every earlier child has exited or been sent SIGKILL, and the spawn is for the latest build of the current module |
| DevServerLaws.NoServerOrphaned | platform/backend/tsdown.config.ts:34-41 | over every interleaving at most one child is live and unkilled, and it is the current server |
| DevServerLaws.RunKeepsOnlyLast | platform/backend/tsdown.config.ts:34-41 | over any run all children but the last one spawned have exited or been sent SIGKILL |
| DevServerLaws.SupersededRestartIsSilent | platform/backend/tsdown.config.ts:127-174 | over any run, a superseded restart stays superseded and spawns nothing more, and one that had not begun never begins |
| DevServerLaws.BoundedSpawns | platform/backend/tsdown.config.ts:231-246 | each restart spawns at most one server plus its retries |
| DevServerLaws.SettlingRunsAreBounded | platform/backend/tsdown.config.ts:123-258 | without another build or load only a bounded number of steps can follow |
| DevServerLaws.QueueDrains | platform/backend/tsdown.config.ts:84-88 | the queue drains with no help from any exit event |
| DevServerLaws.LastBuildWinsExactlyWhenCurrent | platform/backend/tsdown.config.ts:42-49 | after a build that no build or load follows, the drained queue's last spawn is that build's if and only if it belongs to the current module |
| DevServerLaws.LoadSilencesPending | platform/backend/tsdown.config.ts:50-56 | a module load silences what is queued until its own build |
| DevServerLaws.StaleCallbackStrandsServer | platform/backend/tsdown.config.ts:45-47 | a run in which a stale callback leaves no server although the last good build could have spawned |
| RestartLaws.QueueIsTheLastBuilds | platform/backend/tsdown.config.ts:121-127 | over any run the queue holds the restarts of the last builds, one each, in order, and none is passed over |
| RestartLaws.ExitEndsWait | platform/backend/tsdown.config.ts:107-110 | the exit that a stop waits for ends the wait, before and after the force-kill timer |
| RestartLaws.HearsOfDeath | platform/backend/tsdown.config.ts:216-240 | after a death in the startup window and whatever happens meanwhile, the restart gives up if a signal killed the child, if it is superseded or if it was the fourth, and otherwise waits to retry |
| RestartLaws.SpawnsAgain | platform/backend/tsdown.config.ts:182-190 | after the retry wait it spawns again unless it is superseded by then |
| RestartLaws.FailedStartIsRetried | platform/backend/tsdown.config.ts:176-246 | a current restart whose child exits by code as one of the first three spawns another |
| RestartLaws.GivesUpOnlyAfterFour | platform/backend/tsdown.config.ts:216-246 | a current restart leaves the queue only with its server up, killed by a signal or failed for the fourth time |
| DevServerHandle.Handle.LoadModule | platform/backend/tsdown.config.ts:70-82 | evaluating the module takes the load step |
| DevServerHandle.Handle.OnSuccess | platform/backend/tsdown.config.ts:123-126 | the handler takes the build step |
| DevServerLaws.StopAlwaysResolves | platform/backend/tsdown.config.ts:84-113 | the server waited for was sent SIGTERM, its exit or the two timers alone end the wait, and over any run the restart gets past it only once that server exited or was sent SIGKILL |
| DevServerHandle.Handle.ForceKillTimer | platform/backend/tsdown.config.ts:99-106 | the force-kill timer's step |
| DevServerHandle.Handle.SpawnWithRetry | platform/backend/tsdown.config.ts:182-190 | spawning up to the startup race |
| DevServerHandle.Handle.StartupFailed | platform/backend/tsdown.config.ts:224-246 | what follows an exit inside the startup window |
| DevServerHandle.Handle.BeginRestart | platform/backend/tsdown.config.ts:126-140 | the restart body up to its first await |
| DevServerHandle.Handle.AdvanceFront | platform/backend/tsdown.config.ts:126-250 | the front restart's next continuation is the advance step |
| DevServerHandle.Handle.ChildExits | platform/backend/tsdown.config.ts:107-110 | a child's exit and its listener take the exit step |
| DevServerHandle.Handle.Drive | platform/backend/tsdown.config.ts:31-258 | driven through any happenings, the object ends with no orphaned server, only the last child alive and bounded spawns per restart |
| PyJson.LoadsDumps | migration-kit/scripts/frontmatter.py:171-177 | a dumped string loads as itself if and only if it holds no high surrogate right before a low one |
| PyJson.DumpsIsPlain | migration-kit/scripts/frontmatter.py:212-215 | a dumped string is printable ASCII |
| JsonStrings.LoadsExactlyWhen | migration-kit/scripts/frontmatter.py:171-177 | a quoted token reads as s if and only if it is a JSON string that stands for s |
| FrontmatterLaws.EmitThenParse | migration-kit/scripts/frontmatter.py:212-215 | parsing printed frontmatter over any body gives the name, the description, the normalised and stripped body and no unparsed line |
| FrontmatterLaws.ParsedCropped | migration-kit/scripts/frontmatter.py:64-103 | the keys a block assigns do not depend on carriage returns that end its lines |
| FrontmatterLaws.RenamedKeys | migration-kit/scripts/frontmatter.py:246-262 | editing a block sets its name and no other key |
| FrontmatterValues.SingleQuotedExactlyWhen | migration-kit/scripts/frontmatter.py:185-203 | a single-quoted token reads as s if and only if it is s with its quotes doubled, between quotes |
| FrontmatterValues.BlockListReads | migration-kit/scripts/frontmatter.py:114-131 | a key over item lines is assigned the list up to the first line that is no item |
| FrontmatterValues.FlowListReads | migration-kit/scripts/frontmatter.py:141-159 | a bracketed list of quoted texts reads as those texts |
| FrontmatterValues.QuotedCommaIsSurfaced | migration-kit/scripts/frontmatter.py:149-158 | a comma inside quotes makes a flow list unsupported |
| Frontmatter.ParsedAppend | migration-kit/scripts/frontmatter.py:64-103 | parsing goes on at any line that is no list item as if it started there |
| FrontmatterGrammar.ScalarExactlyWhen | migration-kit/scripts/frontmatter.py:162-203 | a token is a scalar if and only if it opens with no indicator and is a JSON string, a doubled text in single quotes, or a bare text without a comment, which reads as itself |
| FrontmatterGrammar.ListExactlyWhen | migration-kit/scripts/frontmatter.py:141-159 | a bracketed value is a list if and only if it holds no brackets and its parts at the commas, stripped, are scalars and no mappings |
| FrontmatterGrammar.BlankLine | migration-kit/scripts/frontmatter.py:70-72 | a line of white space does nothing |
| FrontmatterGrammar.OddLine | migration-kit/scripts/frontmatter.py:73-82 | an indented line and a line without a key are surfaced |
| FrontmatterGrammar.ValueLine | migration-kit/scripts/frontmatter.py:84-111 | a key with a value assigns it, or is surfaced if the key has one or the value cannot be read |
| FrontmatterGrammar.ListLine | migration-kit/scripts/frontmatter.py:85-131 | a key alone takes the items under it as a list, or is surfaced |
| FrontmatterGrammar.EveryLine | migration-kit/scripts/frontmatter.py:64-103 | these four are all the lines there are |
| FrontmatterGrammar.BlockIsParsed | migration-kit/scripts/frontmatter.py:45-61 | frontmatter is what stands between a first line of three dashes and the next |
| FrontmatterGrammar.NothingIsParsed | migration-kit/scripts/frontmatter.py:52-57 | without two such lines the whole text is the body |
| FrontmatterScan.ParseSingleQuoted | migration-kit/scripts/frontmatter.py:185-203 | the loop computes the single-quoted form |
| FrontmatterScan.ParseFlowList | migration-kit/scripts/frontmatter.py:141-159 | the loop computes the flow list |
| FrontmatterScan.TakeBlockList | migration-kit/scripts/frontmatter.py:114-131 | the loop gives the items and the line after them |
| FrontmatterScan.ParseBlock | migration-kit/scripts/frontmatter.py:64-103 | the loop computes the block's keys and unparsed lines |
| FrontmatterScan.ParseFrontmatter | migration-kit/scripts/frontmatter.py:45-61 | the code computes the parsed document |
| FrontmatterScan.EditLines | migration-kit/scripts/frontmatter.py:246-262 | the loop edits the first line that holds the name, refuses it, or puts one in front |
| FrontmatterScan.Rename | migration-kit/scripts/frontmatter.py:223-262 | the code computes the renamed document |
| Renaming.NameThereExactlyWhen | migration-kit/scripts/frontmatter.py:246-262 | a written name is read back, pairs joined, if and only if no stray fence stands before its line |
| Renaming.NameReadExactlyWhen | migration-kit/scripts/frontmatter.py:223-230 | the name is read back if and only if moreover it holds no surrogate pair |
| Renaming.RenameExactlyWhen | migration-kit/scripts/frontmatter.py:223-262 | name read back, other keys and body unchanged, if and only if the name has no pair and one normalisation leaves neither a stray fence nor a "\r\n" in the body |
| Renaming.RenamePlain | migration-kit/scripts/frontmatter.py:238-244 | a document without frontmatter becomes the body under a one-line block |
| FrontmatterGrammar.RenamedAt | migration-kit/scripts/frontmatter.py:218-262 | the first line that gives a name is replaced, or refused where its value is empty or opens with an indicator or bracket; without one the name goes in front; all other lines stay |
| Renaming.RenameTwice | migration-kit/scripts/frontmatter.py:232-234 | renaming again to the same name changes nothing if and only if no stray fence hides the name line and, for names with a pair, the input had nothing left to normalise |
| Renaming.PairIsRenamedTwice | migration-kit/scripts/frontmatter.py:232-244 | an input and a name whose second rename changes what the first wrote |
| Renaming.RenameOrdinary | migration-kit/scripts/frontmatter.py:223-262 | on text without "\r\r\n" and names without pairs every promise holds |
| Renaming.DoubledReturnMovesTheFence | migration-kit/scripts/frontmatter.py:237-262 | an input whose body the rename changes, for every name |
| Migration.FirstMatch | migration-kit/scripts/apply.py:566-650 | an existence check finds a match if and only if some row matches |
| Planning.StableSortIsUnique | migration-kit/scripts/apply.py:725-726 | the stable sort has one result: in order of rank and unchanged within each rank |
| Planning.SortProperties | migration-kit/scripts/apply.py:91-94 | the sort meets that description |
| Planning.SurvivingKeys | migration-kit/scripts/apply.py:672-694 | the surviving hooks have distinct keys and every key has one |
| Planning.FlaggedExactlyLater | migration-kit/scripts/apply.py:672-694 | an operation is removed if and only if an earlier hook has its key, and nothing else changes |
| Planning.FlaggingTwice | migration-kit/scripts/apply.py:672-694 | flagging is idempotent |
| Planning.PlannedProperties | migration-kit/scripts/apply.py:672-726 | the plan that is run is in order and its hooks have distinct keys, none lost |
| AppliedPlan.PlanIs | migration-kit/scripts/apply.py:91-726 | nothing in the plan precedes what it depends on, and of each kind it is the tasks in their own order, hooks with the agent, event and file of an earlier one without their operation |
| MigrationLaws.ListingsAreStable | migration-kit/scripts/apply.py:566-650 | oldest-first and newest-first listings are both stable |
| MigrationLaws.RerunExactlyWhen | migration-kit/scripts/apply.py:560-651 | a second run creates nothing, resolves the same primary agent and leaves the instance as it was, if and only if the first one left every skill filed under the name it is searched by |
| MigrationLaws.ApplyTwice | migration-kit/scripts/apply.py:560-651 | a second run is a no-op whenever every skill's content carries the name it is searched by |
| MigrationLaws.RetriesMakeNoTwins | migration-kit/scripts/apply.py:768-798 | however often a plan is retried, and whatever fails, no two entities share an identity |
| MigrationLaws.SkillTwiceExactlyWhen | migration-kit/scripts/apply.py:576-585 | a created skill is created again if and only if its content does not carry the searched name |
| MigrationLaws.RunPrimary | migration-kit/scripts/apply.py:791-796 | the primary agent is the last claude_md agent that landed, else the first agent |
| MigrationLaws.PrimaryIsFinal | migration-kit/scripts/apply.py:91-94 | when any install or hook runs the primary agent already has its final value |
| MigrationLaws.AttachedToFinalPrimary | migration-kit/scripts/apply.py:781-785 | installs and hooks that name no agent go to that agent, others keep theirs |
| AppliedPlan.EveryTurn | migration-kit/scripts/apply.py:560-668 | every turn of every run skips what exists, fails or is left to hand when it has nothing to attach to, or else stores its row, and is recorded so |
| AppliedPlan.RowsAreTheTasks | migration-kit/scripts/apply.py:560-798 | the new rows of a run are, in order, rows of its tasks: each has its task's own fields, installs and hooks without an agent the final primary one, and every task recorded as created has its row |
| AppliedPlan.AppliedLeaves | migration-kit/scripts/apply.py:731-846 | an invalid plan changes nothing; else skill defaults are on if a skill or agent landed, and every agent that landed has the three sandbox tools if all are offered |
| MigrationLaws.PinnedHookIsSkipped | migration-kit/scripts/apply.py:677-680 | surviving hooks meet if and only if one is pinned to the agent the other is attached to, and of two that meet the later is recorded as skipped and stores nothing |
| MigrationLaws.RunAgents | migration-kit/scripts/apply.py:791-794 | the agents given the sandbox tools are those that landed, each once |
| MigrationRun.FlagHookCollisions | migration-kit/scripts/apply.py:672-694 | the loop computes the flagged plan |
| MigrationRun.RunApply | migration-kit/scripts/apply.py:768-801 | the loop computes the run |
| MigrationRun.SandboxAssignments | migration-kit/scripts/apply.py:815-846 | the assignments pair every landed agent with every sandbox tool, or a tool is missing |
| SkillNames.GeneratedIsAccepted | migration-kit/scripts/apply.py:206-226 | generated content passes the offline check if and only if its name and description are not blank |
| SkillNames.AcceptedNameExactly | migration-kit/scripts/apply.py:169-203 | accepted content carries the searched name, unless that had to be written and holds a surrogate pair |
| SkillNames.AcceptedIsUnambiguous | migration-kit/scripts/apply.py:206-226 | content that passes the check gives the name on exactly one line and the description on exactly one |
| SkillNames.LoadedNamesReadBack | migration-kit/scripts/apply.py:711-712 | names loaded from JSON without raw surrogates hold no surrogate pair |
| SkillNames.BuiltPlanTwice | migration-kit/scripts/apply.py:560-651 | plans as they are built are sound if and only if each skill's name has no surrogate pair or did not have to be written, and the second run of a sound plan is a no-op |
| Inventory.ReadWriteRead | migration-kit/scripts/contracts.py:521-637 | every value that is read, written and read again gives the same inventory |
| Inventory.WriteThenRead | migration-kit/scripts/contracts.py:691-703 | writing and reading back gives the inventory, for all eight kinds |
| Inventory.ReadableExactlyWhen | migration-kit/scripts/contracts.py:521-703 | an inventory comes back if and only if it can be read from anything |
| InventoryLaws.InventoryExactlyWhen | migration-kit/scripts/contracts.py:300-637 | a JSON value is read as an inventory if and only if its fields have the inventory's types and values, absent ones their defaults |
| Inventory.RebuiltIsSame | migration-kit/scripts/contracts.py:691-703 | nested configuration trees are rebuilt as they are |
| Inventory.ReadStrList | migration-kit/scripts/contracts.py:349-355 | the loop reads a list of strings or refuses |
| Inventory.ReadStrMap | migration-kit/scripts/contracts.py:358-364 | the loop reads a map of strings or refuses |
| Inventory.ReadFrontMatter | migration-kit/scripts/contracts.py:367-379 | the loop reads frontmatter or refuses |
| InlineMetadata.ScanWritten | migration-kit/scripts/discover.py:530-556 | scanning a written array gives its requirements whatever they and the comments between them hold |
| InlineMetadata.QuotedExactlyWhen | migration-kit/scripts/discover.py:549-554 | a requirement survives its quotes if and only if it does not hold them |
| InlineMetadata.ExtractWritten | migration-kit/scripts/discover.py:510-556 | requirements written into a script are extracted from it |
| InlineMetadataLaws.ScanExactly | migration-kit/scripts/discover.py:538-556 | any text is read as filler, comments and quoted requirements up to where the array stops, closed or not |
| InlineMetadataLaws.ArrayExactly | migration-kit/scripts/discover.py:505-537 | the array that counts is the first that opens at the start of a line |
| InlineMetadataLaws.SplitLinesExactly | migration-kit/scripts/discover.py:511 | the lines are what stands between line ends, a carriage return and a line feed together ending one |
| InlineMetadataLaws.ExtractExactly | migration-kit/scripts/discover.py:510-527 | the requirements are those of the first block with its comment signs taken off, and a line in it that is no comment leaves none |
| InlineMetadataScan.ScanDependencyStrings | migration-kit/scripts/discover.py:530-556 | the index loop computes the scan and ends |
| InlineMetadataScan.ExtractDependenciesBlock | migration-kit/scripts/discover.py:510-527 | the code computes the extraction |
| Handlebars.FoundInOrder | platform/shared/handlebars-expressions.ts:113-147 | expressions are found in order, apart, each at unescaped opening braces |
| HandlebarsLaws.EndFoundExactlyWhen | platform/shared/handlebars-expressions.ts:149-180 | an expression ends behind the first place outside string literals where its braces close |
| HandlebarsLaws.FoundExactly | platform/shared/handlebars-expressions.ts:107-147 | what is found is, one after the other, what opens first with two or three braces and closes: braces, white space, the body, white space, braces |
| HandlebarsLaws.FoundIsUnique | platform/shared/handlebars-expressions.ts:107-147 | that leaves one possible answer |
| Handlebars.EscapingIsReversible | platform/shared/handlebars-expressions.ts:70-90 | taking the inserted backslashes out recovers the template |
| Handlebars.RescanAgreesExactlyWhen | platform/shared/handlebars-expressions.ts:74-147 | scanning the escaped template finds exactly the unselected expressions, moved, if and only if each selected one has two braces and holds no opening a scan looks into, or one that never closes with nothing left behind it |
| HandlebarsScan.FindExpressionEnd | platform/shared/handlebars-expressions.ts:154-180 | the loop finds the end or -1 |
| HandlebarsScan.FindTemplateExpressions | platform/shared/handlebars-expressions.ts:113-147 | the loop finds the expressions |
| HandlebarsScan.EscapeTemplateExpressions | platform/shared/handlebars-expressions.ts:74-90 | the loop computes the escaped template and lists the selected sources in order |
| HandlebarsScan.EscapingAgainExactlyWhen | platform/shared/handlebars-expressions.ts:74-90 | escaping an output again changes nothing if and only if nothing found in it is selected |
| HandlebarsScan.EscapingTwiceIsOnce | platform/shared/handlebars-expressions.ts:74-90 | so for predicates on the text escaping twice is escaping once wherever the two scans agree |
| HandlebarsScan.TripleIsFoundAgain | platform/shared/handlebars-expressions.ts:74-147 | {{{x}}} selected is found again one brace in |
| HandlebarsScan.NestedIsFoundAgain | platform/shared/handlebars-expressions.ts:74-147 | {{a{{b}} selected is found again from its inner braces |
| JsonObjectEnd.ObjectEndFound | platform/shared/mcp-tool-error.ts:418-460 | for every JSON object and any suffix the scan stops on the object's final brace |
| JsonScanLaws.ScanExactlyWhen | platform/shared/mcp-tool-error.ts:418-460 | on any text the scan stops at the first closing brace outside strings that takes the depth to none, and nowhere else |
| JsonObjectEnd.FindBalancedJsonObjectEnd | platform/shared/mcp-tool-error.ts:418-460 | the loop computes the scan |
| JsonObjectEnd.ExtractToolArguments | platform/shared/mcp-tool-error.ts:353-363 | nothing comes back unless the message goes on with an object that closes, and then as many code units of it as it has code points, without white space at the end |
| JsonObjectEnd.ArgumentsAreUnique | platform/shared/mcp-tool-error.ts:353-363 | that leaves one possible answer |
| JsonScanLaws.ArgumentsExactlyWhen | platform/shared/mcp-tool-error.ts:353-363 | arguments come back if and only if, behind white space, an object opens and its code points close, and they are as many code units as that |
| JsonObjectEnd.ArgumentsComeBackExactlyWhen | platform/shared/mcp-tool-error.ts:353-363 | the object's text comes back if and only if it holds no surrogate pair |
| JsonObjectEnd.SmileLosesItsBrace | platform/shared/mcp-tool-error.ts:353-363 | an object whose key is U+1F600 comes back without its final brace |
| Credentials.RedactedReadsNothing | platform/shared/identity-provider.ts:286-305 | after redaction no listed path has a value |
| Credentials.DeleteAllLeavesOthers | platform/shared/identity-provider.ts:286-305 | redaction leaves every path apart from the listed ones |
| Credentials.ReportsConfigured | platform/shared/identity-provider.ts:289-303 | the paths reported are, in order, those at which the record has a non-empty string |
| Credentials.RedactedShowsNoSecret | platform/shared/identity-provider.ts:231-305 | redacted by the list in use, no provider shows any of the thirteen credentials |
| Credentials.CarriedCredential | platform/shared/identity-provider.ts:307-335 | a non-empty incoming value wins, a blank one gives way to the stored one unless its parent was dropped |
| Credentials.WriteKeepsParents | platform/shared/identity-provider.ts:477-490 | writing never creates, removes or changes the kind of anything above the leaf |
| Credentials.RoundTrip | platform/shared/identity-provider.ts:286-335 | redacting and carrying forward gives the record back, bar its blanks |
| Credentials.RoundTripExactlyWhen | platform/shared/identity-provider.ts:286-335 | it gives exactly the record if and only if every listed leaf is a non-empty string |
| Credentials.RedactAfterCarry | platform/shared/identity-provider.ts:286-335 | redacted, an update reads the same with or without the carried credentials |
| Credentials.RedactTwice | platform/shared/identity-provider.ts:286-305 | redacting twice redacts once |
| Credentials.SecretPathsListed | platform/shared/identity-provider.ts:231-245 | no path of the list in use leads to another |
| CredentialObjects.ReadAtPath | platform/shared/identity-provider.ts:441-448 | the cursor ends on the object that the path leads to |
| CredentialObjects.DeleteAtPath | platform/shared/identity-provider.ts:455-470 | deleting one key of the parent object removes the leaf from the whole record, which reports whether it was populated |
| CredentialObjects.WriteAtPath | platform/shared/identity-provider.ts:477-490 | setting one key of the parent object writes the leaf into the whole record |
| CredentialObjects.Redact | platform/shared/identity-provider.ts:286-305 | the loop redacts a copy of new objects in place, reports exactly the populated paths and leaves the provider untouched |
| CredentialObjects.Preserve | platform/shared/identity-provider.ts:315-335 | the loop carries the stored values forward onto a copy of new objects, and changes neither record |
| Grants.FindUngrantablePermissions | platform/shared/access-control.ts:363-388 | the nested loops list what is missing, in order |
| GrantLaws.PassesExactlyWhenCovered | platform/shared/access-control.ts:352-362 | the check passes if and only if the granter holds every real, non-exempt permission of the role |
| GrantLaws.MissingNames | platform/shared/access-control.ts:363-388 | the check lists, in order and as resource:action, exactly what the universe has, the granter lacks and the rule does not exempt |
| GrantLaws.GrantIsPreorder | platform/shared/access-control.ts:352-388 | the check is reflexive and transitive |
| GrantLaws.NoEscalation | platform/shared/access-control.ts:352-362 | over any sequence of grants nobody gains what nobody held |
| GrantLaws.NeverEscalatesExactlyWhen | platform/shared/permission-hierarchy.ts:4-26 | that survives implied permissions if and only if the universe lists the admin action or none of what it implies |
| GrantLaws.ShippedUniverseIsSafe | platform/shared/access-control.ts:97-104 | the shipped universe lists it |
| GrantLaws.RefusedThoughAble | platform/shared/permission-hierarchy.ts:4-26 | exactly when a granter able to do all a role allows is refused |

## Left out

- buildPlayback and the recorder are not part of this model; the pruner's claims about the playback clock are stated on the anchors its own comments name.
- Event payloads, segments and transcript messages are opaque texts with a time; JavaScript numbers are integers.
- Real clocks and the operating system: the dev server's timers and child exits are steps that may come in any order, `spawn` does not throw, and log output is dropped.
- HTTP, GitHub and GCS clients, Slack posting, the installer, the file-system walk of `discover`, `shlex`, and the dangling-reference scan.
- The instance's own behaviour: it only grows, filters exactly, lists stably, keeps its tools and reads a skill's name from the frontmatter as the parser here does. The backend's YAML reader is not part of this model.
- Payload fields that no existence check reads (team lists, environment values, descriptions, bundled files) and the texts of details and errors.
- The `dry-run` printing, `_finish`, and the two result lines that report the hook feature and the skill defaults.
- The builders `_build_payload` and `_build_hook` beyond what `Migration.WellBuilt` and `SkillNames.BuiltFromSource` say of their results: regular-expression checks on hook names and requirements would add easy members.
- MigrationLaws.RerunExactlyWhen: assumes that the tools an instance lists stay the same between the runs; a policy for a tool that appears later is created by the later run.
- CredentialObjects.Redact: asks that no object of the provider be reachable in two ways, as is so of a record read from JSON; of such sharing, which `structuredClone` keeps, nothing is said.
- CredentialObjects.Preserve: asks the same of each of its two records, which may share objects with each other.
- Playback.PrunedChunkDecodesAlike: says nothing of chunks whose stream has events inside the trailing trim before them; the player does not show what lies past the trim.
- Playback.PictureUntouchedExactlyWhen: asks for distinct encoder timestamps within a stream.
- The search for the markers around a policy-denied message, and the classification of its reason.
- `isBlockExpression`, `findUnparseableExpressions` and the Handlebars parser itself.
- Error texts and paths of the inventory readers, and the plan reader, which is built from the same readers.
- InlineMetadata.ExtractWritten: a line is what Python's `splitlines` takes for one, so a requirement that holds U+0085 or U+2028 is not on a single line.
- Secret detection by regular expression, in `discover` and elsewhere.
- Zod schemas, permission and route tables, role tables, prompts and constants.
- How the backend combines the roles of one user: `GrantLaws.Both` is the union.
