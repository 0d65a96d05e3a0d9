# Jolli Memory: verified models of its stateful core

Jolli Memory is a CLI and a VS Code extension. This project models the parts of it whose correctness depends on
history rather than on one function body, and proves what their comments and tests promise.

- **Plugin loader** (`cli/src/PluginLoader.ts`). A plugin registers commands on a patched Commander program.
  `Commander` is the collision rule alone; `PluginPatch` is the patch with its shadow set; `PluginNamespace` proves
  that a patched run is plain Commander on the calls that do not collide. `PluginDiscovery`, `ByteOrder`,
  `PluginRoots`, `NpmRootCache` and `PluginLoader` cover the scan, the order of names, the upward walk, the cached npm root, and the agreement of
  loading, stubs and diagnostics. `HelpSections` uses the loader's invariant for the root help (`cli/src/Api.ts`);
  `BareCli` is the program `main` builds without plugins.
- **Memory-database watcher** (`vscode/src/Extension.ts`). `MemoryDbWatcher` is a protocol of writes, events, timer
  ticks, reads and settlements. The class is the closure; the run lemmas quantify over all interleavings.
- **Log writer** (`cli/src/Logger.ts`). `ArchiveNames` (how archive names sort), `LogRotation` (one write), `LogFiles` (which
  files a write touches, and when it rotates),
  `LogHistory` (what history survives a run), `LogOverflow` (the eleventh archive of one second), `LogSize` (how much disk
  a run takes).
- **Async gates**. `PromiseChain` (`kbInitChain` and `writeQueue`), `CompileGuard` (`compileInFlight`), `OptOut`
  (Disable, Enable, reload and activation).
- **State check of the OAuth callback** (`cli/src/auth/AuthCallback.ts`). `Utf8`.

`JsStrings`, `JsWhitespace` and `Wrappers` are helpers. Each class method is proved equal to one case of a step
function; the lemmas are about those functions, so they hold of every sequence of method calls.

## What the proofs turned up

The model follows the code where the code and its comments differ.

- *Watcher.* A step loses coverage of an unread write exactly where `MemoryDbWatcher.Keeps` fails
  (`StepCoversExactly`, an equivalence), and without coverage the machine can rest with the write unread
  (`UncoveredCanLose`). Concrete runs: an event delivered only after its refresh settled (`LateEventLosesAWrite`), a
  signature that comes back to the one last seen (`RepeatedSignatureLosesAWrite`), and a failed refresh
  (`FailedRefreshLosesAWrite`: errors are only logged, yet the `finally` publishes the signature).
  The price that the comment at `vscode/src/Extension.ts:2474-2476` names, one extra refresh for a miss of mere own
  churn, is exact: `RefreshesAreBounded` proves it as an upper bound over all runs without external writes, and
  `OwnEventsCanStorm` meets it for every number of misses. Misses have no bound of their own, so refreshes can follow
  one another without any write.
- *Archive names.* Within one second they sort in the order they were given exactly up to `_9`
  (`ArchiveNames.SuffixesSortUpToNine`), since `_10` sorts before `_2`. So the eleventh archive of a second sorts among
  the older ones (`LogOverflow.NewestSortsLastExactly`, an equivalence); no line is lost by that, but name order is no
  longer history (`LogOverflow.TenReorders`, `OverflowKeeps`).
- *Boundary of the root walk.* `rel.startsWith("..")` also turns away a first segment such as `..work`.
  `PluginRoots.DotsAreTheOnlyMiss` states exactly when the walk misses something.
- *Names.* `split(/[\s<[]/)` and Commander's own pattern agree on exactly the well-formed names
  (`CommandNames.ReadingsAgree`); for every other name there is a program on which the collision throws
  (`PluginNamespace.OnlyWellFormedNamesAreSafe`).
- *Compile guard.* The dynamic import at `vscode/src/CompileCommand.ts:82` lies outside the `try`; if it rejects the
  guard stays closed for good (`CompileGuard.LeakIsReachable`, `LeakIsPermanent`), and only then is the flag inexact
  (`SingleFlight`, an equivalence).
- *Opt-out.* An unreadable `profile.json` reads as "not disabled", and `persistDisableSwitch` may write that
  (`cli/src/core/RepoProfile.ts:227-238`, `488-512`). `OptOut.StepDurable` says exactly which steps, readings included,
  keep the opt-out durable; `ErasingReadWakes` shows one reading that undoes it from any state. Without such readings,
  only an activation that had read the flag as unset before Disable persisted it acts against it (`WokenExactly`, an
  equivalence). A half state, hooks removed with the flag unset, can come exactly where an Enable and a Disable overlap
  or one is already too late (`HalfStateExactly`, an equivalence; `OverlapLeavesHalfState` is a run that ends in it), and
  through an erasing reading exactly where hooks are removed or a Disable is in flight (`ErasureExactly`, an
  equivalence). Invocations of one kind may overlap at will (`NoHalfState`).
- *Root program.* `main` throws if and only if a plugin took the name of its last command, `__refresh-update-cache`
  (`HelpSections.MainIsPartitioned`); one that does is in `HelpSections.PluginCanStopMain`.
- *State check.* Lone surrogates encode as U+FFFD, so two different ill-formed strings can be equal
  (`Utf8.LoneSurrogateAliases`).
- *Order of names.* `compareDirentNames` is described as byte order; `<` on JavaScript strings compares UTF-16 code
  units. On well-formed names the two agree if and only if the names do not cross (`ByteOrder.LessIsByteOrder`), and
  discovery is what the description says if and only if no result crosses another claimant in its directory
  (`ByteOrder.DiscoveryInBytes`); `ByteOrder.ByteOrderMisses` is a directory where it is not.

## Hypotheses

They are predicates, named where they are used: `MemoryDbWatcher.Keeps` (exact; `Fair`, which is easier to read, implies
it), `MemoryDbWatcher.NoExternalWrite`, `LogHistory.Orderly` (one process, a clock that does not run back, years of four
digits, archives that can be stat'ed and unlinked, `_9` of its second free at a rotation; rename, readdir, stat and
append may fail), `LogSize.Healthy` (rotations that are due succeed), `PluginNamespace.IsRun` (non-empty well-formed
names, variables assigned before use), `HelpSections.WellBehaved` (every plugin's calls are such a run),
`NpmRootCache.Clocked` (time does not run back), `OptOut.Safe` and `OptOut.Careful` (both exact, step by step), `ByteOrder.NamesWellFormed` (file names decode to well-formed strings).

## Model

| member | source | states |
|---|---|---|
| MemoryDbWatcher.Watcher.constructor | vscode/src/Extension.ts:2459-2477 | the closure starts with the current signature seen, no timer, no refresh and no missed event |
| MemoryDbWatcher.Watcher.OnMemoryDbChanged | vscode/src/Extension.ts:2478-2484 | an event during a refresh is only recorded; any other cancels the armed timer and arms a new one |
| MemoryDbWatcher.Watcher.TimerFired | vscode/src/Extension.ts:2484-2490 | the tick ends where the signature is the one seen, else starts a refresh with the missed flag cleared |
| MemoryDbWatcher.Watcher.RefreshSettled | vscode/src/Extension.ts:2490-2505 | the settlement publishes the signature only when no event was missed, and re-arms when one was |
| MemoryDbWatcher.StepKeepsInv | vscode/src/Extension.ts:2478-2507 | every step keeps the protocol's shape: the timer variable names the one live timer, `memoryDbRefreshing` the one refresh, never both, and an idle machine with something to see has been or will be told |
| MemoryDbWatcher.OneTimerOneRefresh | vscode/src/Extension.ts:2459-2507 | over every interleaving, live timers and running refreshes together are at most one |
| MemoryDbWatcher.StepCoversExactly | vscode/src/Extension.ts:2462-2507 | where every unread write is covered (a refresh yet to read, a recorded or coming event, an armed timer, each with a difference to find), a step leaves them covered if and only if it is one of `Keeps`: a write or churn that does not restore the signature last seen unless a read is still to come or, for churn, nothing is unread; a settlement that read all or recorded an event; a failure that also leaves a difference; any other step |
| MemoryDbWatcher.NoLostWrite | vscode/src/Extension.ts:2462-2507 | no write is lost in any state that a run of such steps reaches |
| MemoryDbWatcher.FairIsEnough | vscode/src/Extension.ts:2462-2476 | fresh signatures, events of unread writes delivered before their refresh settles and refreshes that do not fail are enough for that |
| MemoryDbWatcher.FairRunIsEnough | vscode/src/Extension.ts:2462-2476 | the same over every run |
| MemoryDbWatcher.UncoveredCanLose | vscode/src/Extension.ts:2462-2507 | coverage asks for no more than it must: from any state without it the machine can come to rest with an unread write by deliveries, ticks and settlements alone |
| MemoryDbWatcher.EveryWriteIsRead | vscode/src/Extension.ts:2459-2507 | from activation on, a run of such steps that comes to rest has read every external write and has seen the signature on disk |
| MemoryDbWatcher.LateEventLosesAWrite | vscode/src/Extension.ts:2490-2505 | a run to rest with an unread write, by an event delivered after its refresh settled |
| MemoryDbWatcher.RepeatedSignatureLosesAWrite | vscode/src/Extension.ts:2486-2487 | a run to rest with an unread write, by a signature that comes back |
| MemoryDbWatcher.FailedRefreshLosesAWrite | vscode/src/Extension.ts:2273-2283 | a run to rest with an unread write, by a refresh whose errors are only logged |
| MemoryDbWatcher.DeliveryWorks | vscode/src/Extension.ts:2478-2484 | a delivery uses up work and owes no further refresh, except one where a refresh that had missed none gets nothing but own events |
| MemoryDbWatcher.StepWorks | vscode/src/Extension.ts:2478-2507 | the same for every step but an external write: refreshes started plus those still owed grow only by such misses |
| MemoryDbWatcher.RefreshesAreBounded | vscode/src/Extension.ts:2474-2507 | once external writes stop, at most one refresh more than the undelivered external events starts, plus one for each miss of nothing but own churn; the run's length is bounded by the work at hand, its churn and those misses |
| MemoryDbWatcher.NeverStuck | vscode/src/Extension.ts:2478-2507 | a machine not at rest has a fair step of its own that misses no own churn, so it comes to rest |
| MemoryDbWatcher.RestIsCurrent | vscode/src/Extension.ts:2478-2507 | at rest only an external write can happen, the seen signature is the disk's, and covered means read |
| MemoryDbWatcher.StormRound | vscode/src/Extension.ts:2474-2507 | a refresh whose own churn is delivered while it runs ends in a state that will refresh again |
| MemoryDbWatcher.StormRounds | vscode/src/Extension.ts:2474-2507 | any number of such rounds follow one another without an external write |
| MemoryDbWatcher.OwnEventsCanStorm | vscode/src/Extension.ts:2474-2507 | from activation, one write and its event on, the bound is met for every number of misses, each costing just one refresh |
| MemoryDbWatcher.BurstsCollapse | vscode/src/Extension.ts:2483-2484 | every event starts the wait anew: no timer armed before it is left to fire, in any later state |
| ArchiveNames.Pad2Order | cli/src/Logger.ts:271-273 | padded numbers below a hundred have two characters, sort as numbers and are injective |
| ArchiveNames.DecimalOrder | cli/src/Logger.ts:297-300 | decimals of one length sort as the numbers they write |
| ArchiveNames.YearOrder | cli/src/Logger.ts:297-300 | four-digit years have one width, sort as numbers and are injective |
| ArchiveNames.FieldOrder | cli/src/Logger.ts:282-287 | a leading field of fixed width decides the comparison before anything after it |
| ArchiveNames.StampOrder | cli/src/Logger.ts:297-300 | stamps have one width, sort exactly as their dates and are injective |
| ArchiveNames.TailOrder | cli/src/Logger.ts:284-287 | `.log` precedes `_1.log`, and those follow one another up to `_9.log` |
| ArchiveNames.NameOrder | cli/src/Logger.ts:303-306 | up to `_9`, archive names sort exactly in the order rotations gave them out |
| ArchiveNames.SuffixesSortUpToNine | cli/src/Logger.ts:284-287 | suffixes up to `n` of one second sort in order if and only if `n` is at most nine |
| ArchiveNames.NameInjective | cli/src/Logger.ts:303-306 | different stamps or suffixes never give one name |
| ArchiveNames.NameReadsBack | cli/src/Logger.ts:282-306 | a name is `debug_`, the date and time in fields of fixed width, the suffix where there is one, and `.log`; each field reads back as the number it was made from |
| LogRotation.SuffixBound | cli/src/Logger.ts:304-306 | names tried and found in the directory are no more than its files, so the search ends |
| LogRotation.FreeSuffix | cli/src/Logger.ts:302-307 | the search ends at the first suffix whose name does not seem to exist, so a rename overwrites nothing that can be stat'ed |
| LogRotation.DoomedAreFirst | cli/src/Logger.ts:314-320 | an archive has ten or more newer ones exactly when it is not among the last ten of the sorted list |
| LogRotation.DoomedFront | cli/src/Logger.ts:317-320 | what the prune loop visits is exactly the set of archives with ten or more newer ones |
| LogRotation.Readdir | cli/src/Logger.ts:317 | a listing names every file once, in no particular order |
| LogRotation.LogWriter.RotateLog | cli/src/Logger.ts:296-324 | the suffix loop, the rename and the prune, with each failure, leave the directory `Rotated` |
| LogRotation.LogWriter.Prune | cli/src/Logger.ts:316-323 | exactly the archives with ten or more newer ones are gone, except those that cannot be unlinked; which names are archives is `LogFiles.IsArchiveExactly` |
| LogRotation.LogWriter.Write | cli/src/Logger.ts:347-376 | one queued write, with each failure, leaves the directory `Written` |
| LogFiles.IsArchiveExactly | cli/src/Logger.ts:267-268 | the names the prune may take: `debug_`, some units that end no line, `.log`, in code units |
| LogFiles.ForeignFilesStay | cli/src/Logger.ts:314-320 | whatever fails, a write neither makes, changes nor removes a file that is not `debug.log` and does not both start with `debug_` and end with `.log` |
| LogFiles.ForeignFilesStayOverRuns | cli/src/Logger.ts:314-320 | the same over every run |
| LogFiles.ConfigIsForeign | cli/src/core/SessionTracker.ts:5-7 | its neighbours `config.json` and `cursors.json` are such files |
| LogFiles.SizeIsText | cli/src/Logger.ts:364-372 | a log's size is the length of its lines in UTF-8 with a line feed after each |
| LogFiles.FullOverRuns | cli/src/Logger.ts:261-262 | no rotation comes too soon: over every run every archive is larger than 2097152 bytes |
| LogFiles.RotatesAtTwoMegabytes | cli/src/Logger.ts:363-372 | nor too late: a log larger than that goes to a free name and the line starts a new one; any other just grows by the line |
| LogFiles.FailuresLeave | cli/src/Logger.ts:353-375 | without the directory nothing happens; where the log cannot be stat'ed or renamed the line is appended to it as it is |
| LogFiles.StuckFilesStay | cli/src/Logger.ts:319 | a file that cannot be unlinked stays |
| LogFiles.UnseenIsOverwritten | cli/src/Logger.ts:326-334 | an archive that exists but cannot be stat'ed is overwritten by a rotation of its second |
| LogHistory.NewestComesLast | cli/src/Logger.ts:282-306 | a rotation's archive sorts after every archive there is, also when a prune freed names of the same second |
| LogHistory.RenameOrder | cli/src/Logger.ts:296-307 | after a rename the archives are in the order they were made and the last second's have no gap |
| LogHistory.RenameContents | cli/src/Logger.ts:307 | a rename to a fresh name keeps every retained line, in order |
| LogHistory.LastSecondSurvives | cli/src/Logger.ts:314-320 | a prune never frees a name of the last second, so none is given out twice |
| LogHistory.PruneOrder | cli/src/Logger.ts:314-320 | a prune keeps the order and the last second without a gap |
| LogHistory.PruneContents | cli/src/Logger.ts:314-320 | a prune forgets lines from the front only |
| LogHistory.AppendKeeps | cli/src/Logger.ts:372 | an append adds its line at the end of what is retained |
| LogHistory.RotationKeeps | cli/src/Logger.ts:296-324 | a rotation keeps a suffix of what was retained, and all of it while there are fewer than ten archives |
| LogHistory.ReadyKeeps | cli/src/Logger.ts:363-370 | the rotation of a write, where due, keeps the archives in order and a suffix of what was retained, all of it while at most ten archives result |
| LogHistory.StepKeeps | cli/src/Logger.ts:347-376 | every write keeps the invariant that ties archives, live log and appended lines |
| LogHistory.RunKeeps | cli/src/Logger.ts:347-376 | the same over every run |
| LogHistory.RetainedHistory | cli/src/Logger.ts:275-324 | after any orderly run, the archives in name order and then `debug.log` are a suffix of the lines appended, and all of them while at most ten rotations have happened |
| LogOverflow.NewestSortsLastExactly | cli/src/Logger.ts:284-287 | in an ordered directory a new archive sorts after every other if and only if `_9` of its second is free |
| LogOverflow.NameTen | cli/src/Logger.ts:303-306 | `_10` sorts after `_1` and before `_2` of its second, and by date among the rest |
| LogOverflow.TenReorders | cli/src/Logger.ts:302-307 | the eleventh archive of a second puts the newest lines there are before those of the last eight archives |
| LogOverflow.OverflowKeeps | cli/src/Logger.ts:314-320 | the prune that follows leaves ten archives of that second, `_1`, `_10`, `_2` to `_9` in name order, and just their lines in that order |
| LogSize.PruneBounds | cli/src/Logger.ts:314-320 | a prune without failures leaves at most ten archives, however many there were |
| LogSize.RotationBounds | cli/src/Logger.ts:296-324 | a successful rotation keeps the bounds and leaves no live log |
| LogSize.StepBounds | cli/src/Logger.ts:359-372 | every write keeps every file within the limit plus one line |
| LogSize.TotalBound | cli/src/Logger.ts:261-265 | the sizes of a list of files add up to at most its length times the largest |
| LogSize.SizeBound | cli/src/Logger.ts:261-265 | after any healthy run the live log is at most the limit plus one line, there are at most ten archives, and all files together are within eleven such files |
| PromiseChain.Chain.RunInitializeKB | vscode/src/Extension.ts:892-897 | a call links its body to the chain, a catch to its body, and the chain to that catch; the caller gets the uncaught promise |
| PromiseChain.Chain.EnqueueLogWrite | cli/src/Logger.ts:351-376 | a call links its body to the chain and the chain to its body |
| PromiseChain.CallKeeps | vscode/src/Extension.ts:892-897 | a call at any time joins the end of the queue and disturbs nothing in it |
| PromiseChain.BodyKeeps | vscode/src/Extension.ts:893-894 | the only body that can start is the front call's, once all before it are over |
| PromiseChain.SwallowKeeps | vscode/src/Extension.ts:895 | the front call's catch fulfils its link and hands on to the next call |
| PromiseChain.FinishKeeps | vscode/src/Extension.ts:893-897 | a body's outcome, rejection included, settles its own caller's promise and no other |
| PromiseChain.StepKeeps | vscode/src/Extension.ts:892-897 | a step other than a call moves the front of the queue strictly forward |
| PromiseChain.Serialized | vscode/src/Extension.ts:880-897 | for any callers, times and rejections: at most one body runs, bodies start and end one by one in call order, and a caller's promise settles as its own body ended and no sooner |
| PromiseChain.NeverWedged | vscode/src/Extension.ts:886-887 | while a call is not over a step other than a call is possible, and the body whose turn has come starts, whatever earlier ones did |
| PromiseChain.CallsEnd | vscode/src/Extension.ts:886-897 | a run without further calls has at most three steps for each call, and where it can only go on by a new call every caller has its answer |
| CompileGuard.CompileCommand.Enter | vscode/src/CompileCommand.ts:70-80 | check-and-set without an await: turned away when the flag is up, else flag and banner go up |
| CompileGuard.CompileCommand.Finally | vscode/src/CompileCommand.ts:114-119 | flag and banner go down |
| CompileGuard.StepKeeps | vscode/src/CompileCommand.ts:38-119 | the flag and the banner are up exactly while one invocation, and only one, is past the check-and-set |
| CompileGuard.SingleFlight | vscode/src/CompileCommand.ts:38-119 | in every interleaving at most one sweep runs, and the flag is up exactly from a check-and-set to its `finally`, also when the sweep throws, if and only if no import has rejected |
| CompileGuard.StagesFollow | vscode/src/CompileCommand.ts:72-119 | a step takes the invocation it names one stage on and no other; one that passes the check imports, and sweeps once the import succeeds |
| CompileGuard.StagesInOrder | vscode/src/CompileCommand.ts:72-119 | over every run, a sweep comes only after its own check and import, a report only after its own sweep |
| CompileGuard.OverIsOver | vscode/src/CompileCommand.ts:72-75 | an invocation that is over, turned away or leaked stays so and never sweeps |
| CompileGuard.TurnedAwayNeverSweeps | vscode/src/CompileCommand.ts:72-75 | an invocation that finds the flag up never sweeps, in any later state |
| CompileGuard.LeakIsPermanent | vscode/src/CompileCommand.ts:77-84 | after a rejected import flag and banner stay up in every later state and nothing compiles again |
| CompileGuard.LeakIsReachable | vscode/src/CompileCommand.ts:77-84 | an invocation, its check-and-set and a rejected import lead there |
| OptOut.ExtensionHost.AfterFlagWrite | vscode/src/Extension.ts:2881-2891 | Disable goes on only when the opt-out was persisted, and else changes nothing more |
| OptOut.ExtensionHost.ResumeDisable | vscode/src/Extension.ts:2892-2895 | the mirror is silenced before the uninstall starts |
| OptOut.MirrorAfterDisable | vscode/src/Extension.ts:2892-2895 | it stays silenced in every later state until an Enable's install succeeds or the window reloads |
| OptOut.MirrorAfterEnable | vscode/src/Extension.ts:2778-2783 | after a successful install it is released until a Disable resumes or a reload |
| OptOut.MirrorAfterReload | vscode/src/Extension.ts:538-540 | after a reload it is the flag on disk where the seed could be read, and false otherwise, until a command changes it |
| OptOut.ExtensionHost.AfterInstall | vscode/src/Extension.ts:2773-2789 | Enable releases the opt-out only after a successful install, the mirror first |
| OptOut.ExtensionHost.Activate | vscode/src/Extension.ts:540 | a reload seeds the mirror from disk, where it can be read, and skips the refresh where it is set |
| OptOut.ExtensionHost.ReadManualDisableFlag | cli/src/core/RepoProfile.ts:453-512 | the flag where the profile can be read, at once or under the lock; else "not disabled", which is also written where the lock is held and the write succeeds |
| OptOut.ExtensionHost.EnterRefresh | vscode/src/JolliMemoryBridge.ts:546-555 | the gate of the refresh acts on that reading |
| OptOut.ExtensionHost.Sample | vscode/src/Extension.ts:4764-4799 | the gate of both ways to install acts on one more |
| OptOut.ReadingExactly | cli/src/core/RepoProfile.ts:453-512 | a reading answers wrongly exactly where the flag is set and the profile is readable neither at once nor under the lock, and loses the flag exactly where it then writes |
| OptOut.HooksFollowLast | vscode/src/Extension.ts:2773-2916 | hooks are there after an install of any kind and gone after a removal, until the other |
| OptOut.FlagFollowsLast | vscode/src/Extension.ts:2784-2882 | the flag on disk is as the last persisted Disable, cleared Enable or erasing reading left it |
| OptOut.CommandsInOrder | vscode/src/Extension.ts:2773-2895 | over every run of one window, a Disable removes hooks only after its flag was persisted and the mirror silenced, an Enable clears the flag only after its install succeeded |
| OptOut.FailedCommandsEnd | vscode/src/Extension.ts:2774-2891 | a Disable whose write failed, even where it landed, and an Enable whose install failed do nothing more |
| OptOut.ActivationInstalls | vscode/src/Extension.ts:4767-4804 | without an opt-out, a reload that finds nothing stale goes on to install for the worktree or to enable |
| OptOut.InstallsAreBounded | vscode/src/Extension.ts:4734-4804 | no activation starts more than three installs, one of each kind |
| OptOut.StepDurable | vscode/src/Extension.ts:4730-4804 | with the flag on disk and nothing in flight that acts or clears it, a step keeps it so if and only if it is safe: no user Enable succeeds, and no reader takes a profile it could not read for "not disabled" and acts on that or writes it; either way that step installs nothing |
| OptOut.OptOutIsDurable | vscode/src/Extension.ts:4760-4804 | over every run of safe steps, whatever fails or reloads, activation refreshes, installs and enables nothing, and the flag stays |
| OptOut.WokenExactly | vscode/src/Extension.ts:4760-4804 | safe steps can start an automatic install if and only if the flag is not on disk or an activation in flight has read it as unset |
| OptOut.ErasingReadWakes | cli/src/core/RepoProfile.ts:227-251 | from every state with the flag on disk, one reading that finds no profile under the lock ends with hooks installed, the flag erased and no Enable |
| OptOut.InvokeKeeps | vscode/src/Extension.ts:2768-2876 | an invocation puts nothing at risk if and only if no command of the other kind is in flight |
| OptOut.TaskKeeps | vscode/src/Extension.ts:2773-2916 | each step and failure of a command in flight keeps it that way |
| OptOut.StepKeeps | vscode/src/Extension.ts:2768-2916 | a step keeps the invariant if and only if it is careful: not an invocation while a command of the other kind is in flight, nor a reading that erases a flag which accounts for hooks removed or about to be; hooks Disable removed stay removed until an install |
| OptOut.NoHalfState | vscode/src/Extension.ts:2877-2880 | over every run of careful steps, however many commands of one kind overlap, hooks are never removed with the flag unset, whatever else fails or reloads |
| OptOut.MixedReaches | vscode/src/Extension.ts:2783-2895 | a Disable and an Enable in flight, at whatever awaits, can end in the half state |
| OptOut.HalfStateExactly | vscode/src/Extension.ts:2877-2880 | without a further command or erasure some run reaches the half state if and only if a Disable and an Enable are both in flight, or hooks are removed and an Enable is about to clear the flag, or the flag is gone and a Disable is past its write |
| OptOut.ErasureExactly | cli/src/core/RepoProfile.ts:488-512 | with readings that may erase the flag, but without a further command, some run reaches it if and only if hooks are removed or a Disable is in flight |
| OptOut.OverlapLeavesHalfState | vscode/src/Extension.ts:2783-2790 | an Enable that clears the flag while Disable uninstalls ends, both over, in just that state |
| PluginRoots.FindGitRoot | cli/src/PluginLoader.ts:432-446 | the loop up to the file system root finds what the recursion finds |
| PluginRoots.GitRootIsNearest | cli/src/PluginLoader.ts:432-446 | the `.git` ancestor found has none below it, and none is found exactly when there is none |
| PluginRoots.LocalRoots | cli/src/PluginLoader.ts:447-469 | from the file system alone: the existing `node_modules` of `cwd` and its ancestors up to the nearest `.git` ancestor, wherever home is, or else up to home; deepest first; none where home is not above, or two dots follow the boundary |
| PluginRoots.LocalIsLocal | cli/src/PluginLoader.ts:447-469 | the specification the walk meets finds just those |
| PluginRoots.UpwardExact | cli/src/PluginLoader.ts:454-469 | those are exactly the existing `node_modules` of the prefixes of `cwd` down to the boundary, strictly deepest first |
| PluginRoots.ResolveRoots | cli/src/PluginLoader.ts:424-495 | the roots are those local ones, then the CLI's own, then the global one, each that exists and once, and no others |
| PluginRoots.DotsAreTheOnlyMiss | cli/src/PluginLoader.ts:449-452 | the walk finds all it should unless the first segment below the boundary starts with two dots and there was something to find |
| PluginRoots.DottedProjectIsMissed | cli/src/PluginLoader.ts:449-452 | such a project is missed |
| NpmRootCache.NpmRoot.GetNpmRootGlobal | cli/src/PluginLoader.ts:1094-1120 | a fresh non-empty cache answers; else npm does, and a non-empty answer is written, whatever happens to the write |
| NpmRootCache.CacheHasASource | cli/src/PluginLoader.ts:1110-1118 | over every run, a non-empty cache holds what some earlier call got from npm and answered, with that write's time |
| NpmRootCache.AnswersAgree | cli/src/PluginLoader.ts:1094-1120 | every answer is what npm says now or, up to trimming, what it said in a call that stored it less than the lifetime ago; null and failed writes leave no trace |
| NpmRootCache.TrimExact | cli/src/PluginLoader.ts:1103 | what is trimmed is white space, and no more of it is at either end |
| NpmRootCache.FreshIsUsed | cli/src/PluginLoader.ts:1099-1105 | a stored answer is given again, whatever npm would say, to every call that can read it within its lifetime |
| NpmRootCache.StaleIsAsked | cli/src/PluginLoader.ts:1099-1110 | an unreadable, expired or blank cache is not used: npm's answer is given as it is |
| NpmRootCache.EmptiedIsAsked | cli/src/PluginLoader.ts:1110-1118 | nor is one that a failed write emptied |
| PluginDiscovery.DiscoverPlugins | cli/src/PluginLoader.ts:591-733 | the three loops with both tables yield the first claimant of each ID in the walk's list and its warnings |
| PluginDiscovery.ScanScope | cli/src/PluginLoader.ts:600-729 | one scope directory: the warning table and the result table grow as the list's prefix says |
| PluginDiscovery.FirstFound | cli/src/PluginLoader.ts:715-727 | the entry the tables keep for an ID is its first claimant, and there is none exactly when none claims it |
| PluginDiscovery.Grow | cli/src/PluginLoader.ts:715-727 | how one more candidate changes winners, warnings and both tables |
| PluginDiscovery.InScopeExact | cli/src/PluginLoader.ts:625-670 | a scope's list is exactly its allow-listed packages, in name order |
| PluginDiscovery.VisitedExact | cli/src/PluginLoader.ts:599-670 | the walk's list is exactly all candidates, ordered by root, scope and name |
| PluginDiscovery.WinnersExact | cli/src/PluginLoader.ts:715-727 | the first claimants of an ordered list are exactly its members that come before every other with their ID |
| PluginDiscovery.FoundIsLeast | cli/src/PluginLoader.ts:576-590 | a package is a result if and only if it is the least candidate with its ID |
| PluginDiscovery.FoundForEach | cli/src/PluginLoader.ts:576-590 | every ID that occurs has a result |
| PluginDiscovery.DiscoveryIsLeast | cli/src/PluginLoader.ts:563-590 | exactly one result for each allow-listed ID that occurs anywhere: the least in root, scope and name order (code units, as the code compares them); results come in that order |
| PluginDiscovery.EarliestIsFirst | cli/src/PluginLoader.ts:715-722 | the name a warning mentions is that of the first claimant in the scope |
| PluginDiscovery.DuplicatesExact | cli/src/PluginLoader.ts:715-722 | a scope's warnings are exactly its later claimants, each once, with the first claimant's name |
| PluginDiscovery.WarningsAreTheDuplicates | cli/src/PluginLoader.ts:583-590 | over the whole walk, a warning is issued for exactly each later claimant in the same root and scope, once |
| PluginDiscovery.DiscoveryOnDisk | cli/src/PluginLoader.ts:591-733 | read off directories and manifests: the results are exactly the first claims of an allow-listed ID by a directory or symbolic link, by root, scope and name, and in that order |
| PluginDiscovery.WarningsOnDisk | cli/src/PluginLoader.ts:715-721 | read off the same: a warning for exactly each claim that is not the first in its directory, with the name of the first |
| PluginDiscovery.ReaddirOrderIsIrrelevant | cli/src/PluginLoader.ts:576-581 | results and warnings are the same for any order in which directories are listed |
| ByteOrder.ScalarOrder | cli/src/PluginLoader.ts:545-561 | of two code points the smaller has the smaller UTF-8 encoding, whatever follows (section 3 of RFC 3629) |
| ByteOrder.EncodeOrder | cli/src/PluginLoader.ts:545-561 | UTF-8 keeps the order of code point sequences |
| ByteOrder.ScalarsOrder | cli/src/PluginLoader.ts:559-561 | code units and code points order two well-formed names alike if and only if the names do not cross: at their first difference, a surrogate against a unit above the surrogates |
| ByteOrder.LessIsByteOrder | cli/src/PluginLoader.ts:545-561 | `<` is byte order on two well-formed names if and only if they do not cross |
| ByteOrder.AstralNameDiffers | cli/src/PluginLoader.ts:559-561 | U+1F600 against U+FF5E: `<` puts the first first, bytes the second |
| ByteOrder.WinnerInBytes | cli/src/PluginLoader.ts:545-590 | a result is the least candidate with its ID in root, scope and byte order of name if and only if it crosses no other claimant in its directory |
| ByteOrder.DiscoveryInBytes | cli/src/PluginLoader.ts:545-590 | the results are exactly those least candidates if and only if none of them crosses another claimant in its directory |
| ByteOrder.ByteOrderMisses | cli/src/PluginLoader.ts:545-561 | a directory whose result is not the least in byte order |
| CommandNames.TokenAgrees | cli/src/PluginLoader.ts:950-952 | the loader's token is Commander's exactly where the first separator is a blank or there is none |
| CommandNames.ReadingsAgree | cli/src/PluginLoader.ts:950-957 | loader and Commander read the same name if and only if it is well formed |
| CommandNames.BaseNameExactly | cli/src/PluginLoader.ts:950-952 | the loader's token is what comes before the first white space, `<` or `[` |
| CommandNames.RegisteredNameExactly | cli/src/PluginLoader.ts:953-957 | Commander's is what comes between the leading blanks and the next blank, and there is none exactly for blanks alone |
| Commander.RegisterNames | cli/src/PluginLoader.ts:881-885 | registering adds exactly the command's names and, where it does not throw, keeps names disjoint |
| Commander.AliasNames | cli/src/PluginLoader.ts:881-885 | an alias that does not throw adds exactly itself and keeps names disjoint |
| Commander.CallsLeave | cli/src/PluginLoader.ts:971-984 | what calls that do not throw leave: the new command at the end, or one more alias on one command |
| Commander.AliasesLeave | cli/src/PluginLoader.ts:1054-1065 | and `aliases`: all of them, in order |
| PluginPatch.PatchedProgram.constructor | cli/src/PluginLoader.ts:820-824 | the shadow starts as all names and aliases of the program |
| PluginPatch.PatchedProgram.New | cli/src/PluginLoader.ts:949-986 | a taken name is recorded and a throwaway returned; else Commander decides and the shadow grows |
| PluginPatch.PatchedProgram.NewInto | cli/src/PluginLoader.ts:957-985 | a variable holds an attached command or a throwaway with sets of its own |
| PluginPatch.PatchedProgram.FindConflicts | cli/src/PluginLoader.ts:989-998 | the loop collects exactly the taken name and aliases |
| PluginPatch.PatchedProgram.Add | cli/src/PluginLoader.ts:988-1007 | any conflict drops the command and records them all; else Commander decides and the shadow grows by all its names |
| PluginPatch.PatchedProgram.AliasOn | cli/src/PluginLoader.ts:1042-1052 | a taken alias is recorded in the command's own sets and skipped; else Commander decides |
| PluginPatch.PatchedProgram.AliasesOn | cli/src/PluginLoader.ts:1054-1065 | one by one, and what a throw in the middle leaves |
| PluginPatch.PatchedProgram.Register | cli/src/PluginLoader.ts:836-847 | a plugin's calls up to the first that throws |
| PluginPatch.OldCommandsStay | cli/src/PluginLoader.ts:877-930 | whatever a plugin calls, well formed or not, the commands that were there stay as they are and where they are |
| PluginPatch.RunsCompose | cli/src/PluginLoader.ts:836-847 | a call that throws ends the run; without one, a run goes on |
| PluginNamespace.RegisterMeets | cli/src/PluginLoader.ts:813-819 | Commander throws exactly when a new name or alias is among those in use |
| PluginNamespace.NewStep | cli/src/PluginLoader.ts:949-986 | a patched `command` never throws on a well-formed name, attaches exactly when plain Commander does, and records exactly the collision |
| PluginNamespace.AddStep | cli/src/PluginLoader.ts:988-1007 | the same for `addCommand`, with all its aliases |
| PluginNamespace.AliasStep | cli/src/PluginLoader.ts:1042-1052 | the same for `alias`; on a throwaway neither program nor blocked names change |
| PluginNamespace.RepeatedExact | cli/src/PluginLoader.ts:1061-1063 | aliases recorded one by one are exactly those in use or repeated in the list |
| PluginNamespace.AliasesStep | cli/src/PluginLoader.ts:1054-1065 | patched `aliases` is plain `aliases` on the names that are new |
| PluginNamespace.StepSimulates | cli/src/PluginLoader.ts:931-1070 | every well-formed call: no throw, plain Commander on what is kept, exactly the collisions recorded, shadow equal to the names in use |
| PluginNamespace.FilteredStep | cli/src/PluginLoader.ts:902-905 | a run of the kept calls is plain Commander on the first kept part and then on the rest |
| PluginNamespace.RunSimulates | cli/src/PluginLoader.ts:931-1070 | the same over every run, from every state that agrees, and commands of others are untouched |
| PluginNamespace.RegisterSimulates | cli/src/PluginLoader.ts:877-930 | for every sequence of well-formed calls on a program with disjoint names: nothing throws, the program is the one plain Commander reaches on the calls left after dropping collisions, the blocked names are exactly those that collide, the shadow is exactly the names in use, disjoint, and builtins keep theirs |
| PluginNamespace.OnlyWellFormedNamesAreSafe | cli/src/PluginLoader.ts:950-957 | a name is safe on every program if and only if it is well formed |
| PluginLoader.RootProgram.LoadOnePlugin | cli/src/PluginLoader.ts:754-875 | it loads exactly when range, entry and module are as they must be and `register` returns; then exactly the commands it added are in the group of the first registry entry with its ID, and otherwise nothing is tagged; the old commands are unchanged |
| PluginLoader.LoadedTakesTurn | cli/src/PluginLoader.ts:754-875 | the same of the specification |
| PluginLoader.GroupOfFirst | cli/src/PluginLoader.ts:849 | the group is that of the first entry with the ID, and none without one |
| PluginLoader.LoadedOneByOne | cli/src/PluginLoader.ts:223-228 | discovered plugins take their turns one after another, and the loaded IDs are those of the turns that went well |
| PluginLoader.RootProgram.LoadPlugins | cli/src/PluginLoader.ts:212-231 | each discovered plugin in turn, the loaded IDs, and the diagnostics of the same discovery |
| PluginLoader.RootProgram.RegisterMissingStubs | cli/src/PluginLoader.ts:242-253 | the old program, and then exactly the free names of the stubs of known plugins that are not loaded, each once, visible, without aliases and in its own plugin's group; all their names are in use |
| PluginLoader.StubbedAllAdds | cli/src/PluginLoader.ts:242-253 | the same of the specification |
| PluginLoader.RootProgram.RegisterStub | cli/src/commands/SiteCommandStubs.ts:66-94 | the old program, and then exactly the free names, each once, visible and in the group; Commander throws on none of them |
| PluginLoader.StubbedAdds | cli/src/commands/SiteCommandStubs.ts:66-94 | the same of the specification |
| PluginLoader.LoadedExact | cli/src/PluginLoader.ts:735-745 | the loaded IDs are exactly those of the discovered plugins that pass every gate and whose `register` returns on the program those before left |
| PluginLoader.HitExact | cli/src/PluginLoader.ts:338-340 | with unique IDs the diagnostics look up the very package the loader saw |
| PluginLoader.AttemptsExact | cli/src/PluginLoader.ts:242-253 | a stub is attempted once for exactly each known plugin that has one and is not loaded |
| PluginLoader.LoaderStubsAndDiagnosticsAgree | cli/src/PluginLoader.ts:233-355 | over one discovery: loaded IDs were found, a known plugin with a stub is loaded or gets one attempt and never both, one diagnostic per known plugin in registry order with the package's version and range, `ok` exactly when the range admits the CLI, loaded means `ok`, `incompatible` means not loaded |
| HelpSections.RegisterNotices | cli/src/commands/MovedCommandNotices.ts:42-65 | the old program, and then exactly the moved names not in use, each once and hidden; all of them are in use |
| HelpSections.NoticedAdds | cli/src/commands/MovedCommandNotices.ts:42-65 | the same of the specification |
| HelpSections.BuildProgram | cli/src/Api.ts:402-467 | the registrations of `main` in order, over what discovery finds, yield the program `Main` that the lemmas are about |
| HelpSections.MainInOrder | cli/src/Api.ts:402-467 | part by part: builtins, each plugin's turn, the stubs of those that did not load, the notices, the last command |
| BareCli.AllFree | cli/src/commands/SiteCommandStubs.ts:66-94 | free names are added just as they are listed |
| BareCli.NoPluginProgram | cli/src/Api.ts:402-467 | with no plugin found, the root program command by command: builtins, `space`, the seven site commands and `workflow`, visible and in their groups, the three hidden notices and the hidden refresh |
| HelpSections.PartitionedExactly | cli/src/Api.ts:287-295 | for any set of Memory names, the five filters partition the visible commands if and only if no visible tagged command has a Memory name |
| HelpSections.RowsExact | cli/src/Api.ts:287-295 | a section's rows are exactly the visible commands that belong to it |
| HelpSections.RowsExactly | cli/src/Api.ts:287-295 | section by section, from the names and tags alone; listed is what is neither hidden nor `migrate` or `export-prompt` |
| HelpSections.RowsConcat | cli/src/Api.ts:287-295 | sections keep the program's order |
| HelpSections.EveryRowOnce | cli/src/Api.ts:287-295 | where the sections partition, the help has a row for each listed command, as often as the program has it |
| HelpSections.LoadKeeps | cli/src/PluginLoader.ts:836-854 | one plugin's turn, loaded or not, takes no Memory name and tags none, and it loads exactly when it is importable and its own `register` completes |
| HelpSections.LoadAllKeeps | cli/src/PluginLoader.ts:223-228 | the same for all plugins: no collision keeps one from loading |
| HelpSections.StubKeeps | cli/src/commands/SiteCommandStubs.ts:66-94 | stubs skip taken names, keep names disjoint and take no Memory name |
| HelpSections.StubAllKeeps | cli/src/KnownPlugins.ts:45-86 | the same for every known plugin's stubs, each with its plugin's own tag |
| HelpSections.NoticesKeep | cli/src/commands/MovedCommandNotices.ts:42-65 | the notices skip taken names and keep names disjoint |
| HelpSections.MemoryIsRegistered | cli/src/Api.ts:197-227 | each Memory name is registered before plugins load |
| HelpSections.BuiltinsHold | cli/src/Api.ts:402-436 | the builtins register without a collision and hold the invariant the loader needs; none has the last command's name |
| HelpSections.RootIsPartitioned | cli/src/Api.ts:402-457 | for any builtins that hold the invariant, any stubs and notices: after any well-behaved plugins each visible command is in exactly one section, and the last command's name is taken if and only if a plugin took it |
| HelpSections.MainIsPartitioned | cli/src/Api.ts:402-467 | whatever well-behaved plugins do, `main` throws, by a collision, if and only if a plugin took the name of its last command, and otherwise each visible root command is in exactly one section |
| HelpSections.RefreshTaken | cli/src/Api.ts:461-463 | a plugin registers that name on any program that lacks it |
| HelpSections.PluginCanStopMain | cli/src/Api.ts:461-463 | so one well-behaved, importable plugin is enough to make `main` throw |
| HelpSections.NothingIsOther | cli/src/Api.test.ts:637-655 | with no plugin, "Other commands" is empty |
| Utf8.ScalarRoundTrip | cli/src/auth/AuthCallback.ts:77-84 | decoding an encoded code point gives it back, and its first byte tells its length (section 3 of RFC 3629) |
| Utf8.EncodeInjective | cli/src/auth/AuthCallback.ts:77-84 | no two code point sequences have one encoding |
| Utf8.ScalarsInjective | cli/src/auth/AuthCallback.ts:82-86 | well-formed strings with the same code points are equal |
| Utf8.TimingSafeEqual | cli/src/auth/AuthCallback.ts:86 | an accumulating compare without early exit decides equality of buffers of one length |
| Utf8.ConstantTimeStringEqual | cli/src/auth/AuthCallback.ts:82-87 | true exactly when the code points are the same, so on well-formed strings exactly when they are equal; the length guard keeps the compare in range |
| Utf8.PairEncodes | cli/src/auth/AuthCallback.ts:82-84 | U+1F600, two code units, is one code point and four bytes |
| Utf8.LoneSurrogateAliases | cli/src/auth/AuthCallback.ts:82-87 | two different ill-formed strings that compare equal |

## Left out

- The file system, subprocesses, the network, VS Code's API, dynamic `import()` and semver ranges are parameters or nondeterministic outcomes of steps.
- Commander's argument parsing, help formatting and every throw other than collisions, empty names and empty names in `addCommand`.
- `alias` chained on the executable form of `command`, aliases put on a command after `addCommand`, and plugins that change commands they find on the program: outside the patch by its own comment.
- Plugins that catch a throw of a patched call and go on: a call that throws ends the run in the model.
- The `restore` thunk of `patchProgramCommand` and its own-property cases: the model ends the patch with the run.
- `registerStub` functions that throw: those of the repository check every name first.
- Texts of warnings and diagnostics, `installHint`, `packageName`, debug breadcrumbs for symlinks, and option overrides for tests, `JOLLI_NO_PLUGINS` included.
- Windows paths, symbolic links in the root walk, and `process.cwd()` on another drive: paths are normalized POSIX segments.
- Partial content of a failed cache write: a failed `writeFile` leaves the old file or an empty one.
- Log rotation by several processes, `debug_*` files from elsewhere, archives that cannot be stat'ed or unlinked (these two are modelled in `LogRotation`, and excluded by hypothesis in `LogHistory` and `LogSize`), and the environment and manual-disable gates of `enqueueLogWrite`.
- The watcher after disposal, and timers as durations: a tick may come at any time after arming.
- Commands given by several windows or by the CLI on one repository (their readings of the flag are `ReadElsewhere` steps), what `initializeKB`, status refreshes and the sidebar do after Enable, and the flag's retired spellings: the legacy markers and `userDisabled`, which a reading would migrate.
- `LogHistory.Orderly`: admits ten archives of one second and excludes the eleventh, whose effect is in `LogOverflow`; what further ones do is not modelled.
- OAuth exchange, credential storage, telemetry, the MCP proxy, previews, webviews, summary trees, skill folding, storage and sync.
