# A Dafny model of the deployment engine

The engine supervises sibling processes, compiles deployment specs, unpacks and packs source
archives, runs containers through a Docker daemon, and reports every job to its kernel. This project
models those five parts and proves what they keep and what they promise. `dafny verify
dfyconfig.toml` checks all of it.

## The parts

**The supervisor** (`UMCProcess`, `Supervisor`, `SupervisorSafety`, `SupervisorRuns`,
`SupervisorRespawn`, `SupervisorRates`, `SupervisorNames`, `Monitor`).
`Supervisor` is a state machine: API calls, one monitor per record with a program counter, the record
locks, the supervisor's lock, `stopChan`, the WaitGroup and a clock, with every atomic step chosen
freely. `UMCProcess.Record` is the record as an object whose methods are the critical sections, and
`Monitor` has the monitor's loop over such an object, proved to take the state machine's steps, and the
sequential API. Proved: in every interleaving a record has at most one live process; the accounting of
the WaitGroup and of restarts; the backoff in closed form; an amortised bound on the restart rate, with
runs that reach it; how monitors wind down once `stopChan` is closed; exactly which records can start
another process of their own; and exactly which StartUMC calls are safe, in that no name ever has two
live processes.

**Secrets and compilation** (`Tiling`, `Secrets`, `Compiler`). The scanner for `${secret:key}` is proved
to find the only split of a value into characters and placeholders. A spec compiles exactly when every
placeholder in it resolves, the values in the graph are then the substituted ones, and the graph is
valid exactly when the spec meets three conditions.

**Archives** (`Paths`, `Archive`, `Extraction`, `Packing`). Paths are strings, cleaned and joined as
`path/filepath` does; the string tests for containment are proved equal to tests on component lists.
Extraction works on a map from paths to nodes, which is the disk's tree until a call's path goes
through a link. Proved: on every run the paths given to the calls that create and write are at or
below the destination; nothing outside it changes as long as no path has gone through a link, which
no archive brings about in which no entry goes through the link of an earlier one; the byte budget is
exact; without links an archive unpacks exactly when four conditions hold, and the tree is then what
the entries say; packing and unpacking is a round trip.

**Containers** (`Docker`, `Runner`, `Settings`, `Deployments`, `Lifecycle`). The daemon is two maps and
a number of calls made; each call may fail, with or without having taken effect. Map loops visit their
keys in an unspecified order, which the contracts name. Proved: what Execute reports and what it
leaves alone whatever fails; what a completed run ends with; that the order does not matter and that
redeploying converges; that Stop and ReconcileContainers handle each container once and touch no
other; and that over any sequence of operations no volume is lost or altered.

**Jobs** (`Serve`). One apply or delete event, from its payload to the calls the kernel gets. Proved:
the protocol the kernel sees, when a result is lost, and exactly which payloads succeed.

## Where the code is not what one expects

- A comment at internal/runner/runner.go:105 speaks of topological order; the loop is over a map. The
  model follows the loop, and the results hold for every order.
- StopUMC does not end the monitor, so a stopped component can come back. It does exactly when
  `SupervisorRespawn.MayRespawn` holds of its record (`SupervisorRespawn.RespawnsExactly`), and never
  does after SetRestartPolicy with "never" while the component is Running
  (`SupervisorRespawn.NeverIsForGood`).
- A StartUMC that succeeds gives its name two live processes, sooner or later, in some continuation
  exactly when the earlier record of the name is not spent: it has a live process, or it may respawn
  (`SupervisorNames.StartSafeExactly`). RestartUMC gets there (`SupervisorNames.RestartCanDouble`). A
  record that is not Running and whose monitor has returned is spent
  (`SupervisorNames.ReturnedIsSpent`); that the monitor has returned is not enough, because beside a
  Shutdown it can return and leave a process behind (`SupervisorNames.ReturnedIsNotEnough`).
- Secret substitution is not idempotent (`Secrets.NotIdempotent`). A second pass is harmless exactly
  when the output of the first has no placeholder (`Secrets.StableExactlyWithoutPlaceholder`), which a
  look for '$' before the first can rule in (`Secrets.SecondPassHarmless`).
- An inspection that fails counts as a running container (`Deployments.PlaceRunsExactly`).
- Stop takes containers of another slug when one slug is the other with a hyphen and more
  (`Lifecycle.SlugsInterfereExactly`). Exactly then Execute, too, can take another slug's container
  name, and with an underscore another slug's volume (`Deployments.SlugsShareNamesExactly`).
- The containment tests of extraction look at the path as written. They do not follow links: where an
  entry goes whose path leads through an earlier entry's link is not settled by them
  (`Extraction.StraysExactly`).
- The payload's networks and volumes do not reach the spec: a service that names a network can never
  be deployed, and no volume is ever mounted (`Serve.NetworksNeverSucceed`,
  `Serve.VolumesNeverMounted`).
- For a destination at the root of the file system the containment test lets only the root itself
  through (`Paths.InsideExactly`).

## Assumptions

- `Command.Wait` returns only after that process has exited. It need not return.
- The secrets of one compilation do not change while it runs.
- Containers start and exit by themselves only between the runner's operations (`Lifecycle.Op`).
  While Execute, Stop or ReconcileContainers runs the daemon changes by its calls alone, apart from an
  exit that an inspection comes upon.

## Model

| member | source | states |
|---|---|---|
| UMCProcess.Record.constructor | internal/supervisor/supervisor.go:154-164 | a new record is running, restarts always, with no restarts yet and a backoff of one second |
| UMCProcess.Record.NoteExit | internal/supervisor/supervisor.go:552-555 | Running is cleared and the policy read, nothing else changes |
| UMCProcess.Record.Stopped | internal/supervisor/supervisor.go:232-233 | Running is cleared, nothing else changes |
| UMCProcess.Record.DecideRestart | internal/supervisor/supervisor.go:580-603 | the bookkeeping in place, with doubling, cap, reset and the later clock reading, gives the decision and the new fields of the state machine |
| UMCProcess.Record.InstallCommand | internal/supervisor/supervisor.go:636-640 | the new command is stored and the record is running |
| UMCProcess.Record.SetPolicy | internal/supervisor/supervisor.go:354 | only the policy changes |
| UMCProcess.DecideFollowsClosedForm | internal/supervisor/supervisor.go:585-602 | one decision keeps BackoffSeconds at min(60, 2^j) after j decisions since creation or reset; the branch for more than 60 is never taken |
| UMCProcess.BackoffClosedForm | internal/supervisor/supervisor.go:585-602 | the j-th delay is min(60, 2^(j-1)) s, a reset's own is 1 s, and a reset comes more than 240 s after the previous delay ended |
| UMCProcess.OneRestart | internal/supervisor/supervisor.go:580-616 | one decision takes 45 s less what the potential gives back |
| UMCProcess.RestartRate | internal/supervisor/supervisor.go:580-616 | elapsed time against 45 s per decision with a potential that a reset's long gap pays for |
| UMCProcess.RestartRateBound | internal/supervisor/supervisor.go:580-616 | n further decisions take at least 45n - 251 s, and 45n - 207 s counting from the first |
| Monitor.NoteAndRead | internal/supervisor/supervisor.go:533-555 | the first half of a pass takes the steps up to the policy read |
| Monitor.Restart | internal/supervisor/supervisor.go:580-640 | the second half takes the steps from the bookkeeping to the loop head or the return |
| Monitor.MonitorPass | internal/supervisor/supervisor.go:533-643 | one pass of the loop over the object takes exactly the state machine's steps, and goes on exactly when these end at the loop head |
| Monitor.MonitorUMC | internal/supervisor/supervisor.go:530-644 | the whole loop takes exactly the state machine's steps, up to the pass in which it returns |
| Monitor.StartErrorExactly | internal/supervisor/supervisor.go:122-152 | what each error of StartUMC says, and what it takes to have none |
| Monitor.OnePassKeepsProcessInv | internal/supervisor/supervisor.go:533-643 | a pass keeps the invariant that only the record's Command can be alive |
| Monitor.Manager.StartUMC | internal/supervisor/supervisor.go:121-186 | the first thing wrong is the error and nothing changes; otherwise the name gets a new record, the rest of the table is as before, and a monitor is launched and counted |
| Monitor.Manager.StopUMC | internal/supervisor/supervisor.go:189-234 | an unknown or stopped name is an error; otherwise that record is marked and stays in the table |
| Monitor.Manager.RestartUMC | internal/supervisor/supervisor.go:316-341 | the record is replaced under a second monitor, the port kept, policy, count and backoff start over; if the start fails the old record stays, stopped |
| Monitor.Manager.SetRestartPolicy | internal/supervisor/supervisor.go:344-357 | only that record's policy changes |
| SupervisorSafety.MonitorKeepsProcessInv | internal/supervisor/supervisor.go:533-643 | every monitor step keeps: at most the current process is alive, a record not Running has an exited Command, per program counter |
| SupervisorSafety.MonitorKeepsHistoryInv | internal/supervisor/supervisor.go:580-643 | every monitor step keeps fields, decisions, spawned processes and clock in agreement |
| SupervisorSafety.CallerStepsKeepEntry | internal/supervisor/supervisor.go:189-234 | the steps of StopUMC, SetRestartPolicy and process exits keep both |
| SupervisorSafety.StepKeepsInv | internal/supervisor/supervisor.go:121-643 | every atomic step keeps the invariant of the whole supervisor |
| SupervisorSafety.RunKeepsInv | internal/supervisor/supervisor.go:121-643 | every run keeps it |
| SupervisorSafety.AtMostOneProcessPerRecord | internal/supervisor/supervisor.go:69-82 | after every run each record has at most one live process, and one that is not Running has an exited Command |
| SupervisorSafety.Accounting | internal/supervisor/supervisor.go:181-183 | the WaitGroup counts the monitors not yet returned, and RestartCount less the respawns is 0 or 1 |
| SupervisorSafety.BackoffInEveryRun | internal/supervisor/supervisor.go:580-616 | closed form, delays, reset gap and both rate bounds for every record of every run |
| SupervisorRuns.HeldUpExactly | internal/supervisor/supervisor.go:533-643 | after shutdown a monitor cannot step exactly when it has returned, waits for a live process, or needs a lock that StopUMC holds |
| SupervisorRuns.EachStepCounts | internal/supervisor/supervisor.go:279-313 | after shutdown every step of a monitor lowers its rank, and it spawns within its budget |
| SupervisorRuns.WindsDown | internal/supervisor/supervisor.go:279-313 | after shutdown each monitor takes at most five more steps and starts at most one more process, in every run |
| SupervisorRuns.StepKeepsLockInv | internal/supervisor/supervisor.go:125-234 | every step keeps: a record's lock is held by a StopUMC of that record, the supervisor's by the StartUMC past its check |
| SupervisorRuns.RunKeepsLockInv | internal/supervisor/supervisor.go:125-234 | every run keeps it, so that at most one StartUMC is ever past its check |
| SupervisorRuns.RestartStartsAfterStop | internal/supervisor/supervisor.go:331-340 | RestartUMC goes on to StartUMC, with the record's port, only after a StopUMC that held the record's lock until the process was gone |
| SupervisorRuns.StopsOnlyRunning | internal/supervisor/supervisor.go:190-201 | StopUMC and RestartUMC go on only for a component that is Running |
| SupervisorRuns.StartLetsGo | internal/supervisor/supervisor.go:126-186 | a StartUMC past its check gives the lock back, with a new record and its monitor or with nothing changed |
| SupervisorRuns.ShutdownGoesThrough | internal/supervisor/supervisor.go:287-294 | Shutdown stops one name after the other whatever became of the one before, and closes stopChan after the last; nothing else closes it |
| SupervisorRuns.EntersExactly | internal/supervisor/supervisor.go:125-285 | StartUMC needs a port in range; Shutdown takes every name of the table once |
| SupervisorRespawn.StaysDown | internal/supervisor/supervisor.go:530-643 | a record that may not respawn starts no process in any run that leaves its policy alone |
| SupervisorRespawn.ReadySpawns | internal/supervisor/supervisor.go:530-643 | left alone, a record that may respawn and is held back by nothing starts a process |
| SupervisorRespawn.ComesBack | internal/supervisor/supervisor.go:189-234 | a record that may respawn, whatever its lock and processes, can come to a live new process without a further call |
| SupervisorRespawn.RespawnsExactly | internal/supervisor/supervisor.go:189-234 | after any run, a record can start another process without a change of its policy exactly when MayRespawn holds of it |
| SupervisorRespawn.RestartsExactly | internal/supervisor/supervisor.go:552-578 | once Wait has returned, the monitor goes on to a restart exactly under "always", or under "on-failure" after an exit code that is not zero, and returns otherwise |
| SupervisorRespawn.OnFailureStaysDown | internal/supervisor/supervisor.go:566-578 | under "never", an unknown policy, or "on-failure" after any other end, the component starts no process in any run that leaves its policy alone |
| SupervisorRespawn.ExitRespawnsExactly | internal/supervisor/supervisor.go:566-578 | after any run, a component whose Wait has just returned can run again exactly if the policy asks for it |
| SupervisorRespawn.NeverIsForGood | internal/supervisor/supervisor.go:344-357 | after SetRestartPolicy with "never" while the component is Running, the record starts no process until the policy is set again |
| SupervisorRates.RestartsAtOnce | internal/supervisor/supervisor.go:533-643 | a restart with no delay but the backoff, step by step, which changes the one record and the clock |
| SupervisorRates.FirstBoundIsTight | internal/supervisor/supervisor.go:580-616 | a run from the initial state with six decisions in 63 s from the first, the bound of 45n - 207 |
| SupervisorRates.ResetBoundIsTight | internal/supervisor/supervisor.go:580-616 | a run from the initial state with seven decisions in 64 s after a reset, the bound of 45n - 251 |
| SupervisorNames.ReturnedIsSpent | internal/supervisor/supervisor.go:533-643 | a record not Running whose monitor has returned has no live process and starts none |
| SupervisorNames.TableByStarts | internal/supervisor/supervisor.go:129-183 | only a StartUMC that succeeds changes the table, for its name, or adds a record |
| SupervisorNames.SpentStays | internal/supervisor/supervisor.go:121-643 | a spent record that has been replaced stays spent under every step |
| SupervisorNames.RunKeepsNameInv | internal/supervisor/supervisor.go:129-183 | in a run of safe starts all records but the latest of a name are spent |
| SupervisorNames.AtMostOneProcessPerName | internal/supervisor/supervisor.go:129-183 | in a run where StartUMC succeeds only over spent records, a name never has two live processes |
| SupervisorNames.UnsafeStartDoubles | internal/supervisor/supervisor.go:129-183 | a StartUMC that succeeds over any other record can end with two, with no further call |
| SupervisorNames.StartSafeExactly | internal/supervisor/supervisor.go:129-183 | after a run of safe starts, a start leaves the name safe in everything that follows exactly when the earlier record is spent |
| SupervisorNames.RestartCanDouble | internal/supervisor/supervisor.go:316-341 | a run from the initial state in which RestartUMC ends with two live processes of one name |
| SupervisorNames.ReturnedIsNotEnough | internal/supervisor/supervisor.go:279-294 | a run in which a StartUMC succeeds after the earlier monitor has returned, at a Shutdown, and two processes of the name are live |
| SupervisorRuns.CheckedCalls | internal/supervisor/supervisor.go:129-135 | a StartUMC past its check holds the lock over a record that was not Running |
| Tiling.ScanTiles | internal/compiler/compiler.go:166-185 | the scan from left to right cuts the string into pieces whose holes are all the matches |
| Tiling.TilesUnique | internal/compiler/compiler.go:166-185 | any such cut is what the scan finds |
| Tiling.WrittenIsSource | internal/compiler/compiler.go:166-185 | pieces that fit a string, written out again, are that string |
| Tiling.ReplaceOne | internal/compiler/compiler.go:166-185 | one character is copied, or one match handed to the callback, which looks nothing up after a failure |
| Tiling.ReplaceAll | internal/compiler/compiler.go:164-189 | the output replaces exactly the matches in one pass; the failure is the first match that does not resolve |
| Secrets.OccursIsText | internal/compiler/compiler.go:145 | the pattern at a position is the literal text of a placeholder there |
| Secrets.KeyCharCodes | internal/compiler/compiler.go:145 | the characters of a key, by code |
| Secrets.MatchAtFindsOccurrence | internal/compiler/compiler.go:145 | the matcher finds a key at a position exactly when its placeholder stands there |
| Secrets.OccurrencesDisjoint | internal/compiler/compiler.go:145 | occurrences end inside the value and never overlap |
| Secrets.ParseIsTheOnlySplit | internal/compiler/compiler.go:145-185 | a split of the value has the occurrences as its holes exactly when it is the one the scan finds |
| Secrets.PiecesConcatenate | internal/compiler/compiler.go:145-185 | the pieces as written concatenate back to the value |
| Secrets.ResolvesExactly | internal/compiler/compiler.go:166-189 | a value resolves exactly when every placeholder that occurs in it does |
| Secrets.SubstitutesFirst | internal/compiler/compiler.go:166-185 | text up to the first placeholder stays, the placeholder becomes its secret, and what follows is substituted by itself |
| Secrets.NoPlaceholderUnchanged | internal/compiler/compiler.go:166-191 | a value without a well-formed placeholder comes back verbatim |
| Secrets.ShortcutAgrees | internal/compiler/compiler.go:158-162 | the strings.Contains shortcut gives what the full scan would |
| Secrets.StableExactlyWithoutPlaceholder | internal/compiler/compiler.go:145-185 | a value survives a pass with every store exactly when it has no placeholder |
| Secrets.SecondPassHarmless | internal/compiler/compiler.go:145-185 | if neither the text outside the placeholders nor a value put in holds a dollar sign, a second pass with any secrets changes nothing |
| Secrets.NotIdempotent | internal/compiler/compiler.go:166-185 | substituted text can complete a new placeholder that the pass leaves in its output |
| Secrets.ResolveValue | internal/compiler/compiler.go:157-192 | one variable: its substitution, or its first missing secret, with or without the shortcut |
| Secrets.ResolveSecrets | internal/compiler/compiler.go:150-195 | all variables or an error naming a variable and its first missing secret, in whatever order; without a client the environment is returned |
| Compiler.Compile | internal/compiler/compiler.go:61-116 | succeeds exactly when there is a spec with an ID whose services all resolve, with the whole graph; otherwise the error tells which failed |
| Compiler.CompileServices | internal/compiler/compiler.go:79-97 | the loop over services, in whatever order |
| Compiler.Validate | internal/compiler/compiler.go:119-143 | no error exactly for a valid graph; otherwise the error is about something that is wrong |
| Compiler.FirstUnknown | internal/compiler/compiler.go:135-139 | finds a network reference outside the known ones exactly when there is one |
| Compiler.CompilesExactly | internal/compiler/compiler.go:79-97 | with a client, a spec with an ID compiles exactly when every placeholder of every variable of every service resolves |
| Compiler.CompileKeepsKeys | internal/compiler/compiler.go:70-115 | services, networks, volumes and variables keep their keys |
| Compiler.CompiledCarries | internal/compiler/compiler.go:70-113 | every field of the graph and of its services comes from the spec, the source from the spec as a whole |
| Compiler.CompiledValue | internal/compiler/compiler.go:81-92 | a variable of the compiled graph: the spec's value without placeholders; else its text up to the first one, that one's secret, and what the rest resolves to |
| Compiler.CompiledWithoutClient | internal/compiler/compiler.go:151-154 | without a client the environment is the spec's own |
| Compiler.CompiledGraphValidExactly | internal/compiler/compiler.go:119-143 | the compiled graph is valid exactly when there is a service, each has an image or a build, and each network reference names a network of the spec |
| Paths.SplitJoined | internal/runner/runner.go:516-524 | rendering and splitting a clean path gives its components back |
| Paths.ComponentsOfRender | internal/runner/runner.go:517-521 | cleaning is idempotent |
| Paths.ComponentsOfJoin | internal/runner/runner.go:516 | joining is following the parts of the name from the directory |
| Paths.CleanRules | internal/runner/runner.go:516-521 | the rules for names, repeated slashes, "." and "..", which determine the components of every rooted path |
| Paths.StrictlyInsideExactly | internal/runner/runner.go:557-559 | the prefix test alone means properly below the directory |
| Paths.InsideExactly | internal/runner/runner.go:522-524 | the containment test on strings is the prefix test on components |
| Archive.TestsAreComponentTests | internal/runner/runner.go:516-559 | the tests on targets and link targets mean at or below, and properly below, the destination |
| Archive.ErrorIsFinal | internal/runner/runner.go:500-565 | once an entry fails nothing more happens |
| Extraction.TargetExactly | internal/runner/runner.go:509-516 | an entry is for the path its name gives below one top-level component, and for none without such a name |
| Archive.Disk.Mkdir | internal/runner/runner.go:529-531 | MkdirAll makes what is missing, fails at a file in the way, fails on the way with some of it made, or goes astray at a link |
| Archive.Disk.Write | internal/runner/runner.go:536-548 | opening may fail; else the file, or through a link something not known, holds what was copied under the limit, the counter grows by it, and passing the limit is an error |
| Archive.Disk.Symlink | internal/runner/runner.go:560-562 | the link is made, an existing path is no error, and a path through a link goes astray |
| Archive.Disk.ExtractEntry | internal/runner/runner.go:509-563 | the string code for one entry does what the step on components says |
| Archive.Disk.ExtractTarGzStripped | internal/runner/runner.go:489-566 | the loop is the fold of these steps up to the first error, with the 500 MB limit |
| Extraction.NoObstacleExactly | internal/runner/runner.go:529-535 | directories can be made down to a path exactly when everything there on the way is a directory |
| Extraction.StepConfined | internal/runner/runner.go:509-563 | an entry gives its calls only paths at or below the destination, and changes the tree, as far as it is known, only there |
| Extraction.StaysInside | internal/runner/runner.go:489-566 | on every run, successful or not, every path given to a call that creates or writes is at or below the destination, and everything outside is unchanged unless a path went through a link |
| Extraction.StraightNeverStrays | internal/runner/runner.go:509-563 | if no entry goes through the link of an earlier one, and no link is there at the start, no path goes through a link and nothing outside the destination changes, on every run |
| Extraction.StepStraysExactly | internal/runner/runner.go:527-562 | an entry that works goes through a link exactly when the first thing on its way that is no directory is one |
| Extraction.StraysExactly | internal/runner/runner.go:489-566 | an extraction that works has gone through a link exactly when one of its entries met one |
| Extraction.BadLinkFails | internal/runner/runner.go:552-559 | a link with an absolute target, or one that does not lead properly below the destination, fails and changes nothing |
| Extraction.GoodLinkMade | internal/runner/runner.go:560-562 | any other link, with its directory there and its place free, is made with its text |
| Extraction.LinkOverExisting | internal/runner/runner.go:560-562 | a link for a path that is there changes nothing and is no error |
| Extraction.LinksAreEntries | internal/runner/runner.go:550-562 | on every run, every new link is that of an entry for its path, with its text, relative and leading properly below the destination |
| Extraction.BudgetIsExact | internal/runner/runner.go:496-548 | the counter stays within the limit, at most limit + 1 bytes are written, success means every byte of every file was written and fits, and the size error means the files do not |
| Extraction.MkdirInBuilt | internal/runner/runner.go:529-535 | in a tree built from entries, MkdirAll works exactly when no file is on the way |
| Extraction.DirStep | internal/runner/runner.go:528-531 | a directory entry works exactly when it leaves no path both file and directory |
| Extraction.RegStep | internal/runner/runner.go:532-548 | a regular entry works exactly when that holds and the size fits |
| Extraction.RegAtDestination | internal/runner/runner.go:532-539 | a regular entry for the destination itself never works |
| Extraction.ExtractsExactly | internal/runner/runner.go:489-566 | without links, into an empty directory: success exactly for legal, consistent, fitting entries without failing calls, and the tree is then each file's last body and the directories named or needed, nothing else |
| Packing.TarDirectory | internal/runner/runner.go:444-484 | one entry per visited path, or a failure exactly when some visited path fails to be walked to, described, opened or copied |
| Packing.PackedExactly | internal/runner/runner.go:453-475 | the name, kind and contents written for a path |
| Packing.PackedNameLeadsBack | internal/runner/runner.go:453-465 | a packed name under a top-level directory leads to the same place under any destination |
| Packing.EntriesSayTree | internal/runner/runner.go:444-484 | the packed entries say of every path what the packed tree has there |
| Packing.RoundTrip | internal/runner/runner.go:444-566 | packing a directory and extracting it under one top-level name rebuilds the tree with its contents, for every order of the visit |
| Docker.Engine.VolumeCreate | internal/runner/runner.go:91-102 | an existing volume is left as it is; success is reported when the call takes effect and says so |
| Docker.Engine.ContainerRemoveForced | internal/runner/runner.go:209 | removes what has the name, if the call takes effect |
| Docker.Engine.ContainerCreate | internal/runner/runner.go:213-258 | fails when the name is taken |
| Docker.Engine.ContainerStart | internal/runner/runner.go:262-263 | starts a container that is there |
| Docker.Engine.ContainerInspect | internal/runner/runner.go:280-281 | tells whether the container has exited, unless the call fails |
| Docker.Engine.ContainerStop | internal/runner/runner.go:622-625 | stops a container that is there |
| Docker.Engine.ContainerRemove | internal/runner/runner.go:626-629 | removes a container that is there and stopped |
| Docker.Engine.ContainerList | internal/runner/runner.go:574-576 | lists every container once |
| Runner.MakePortBindings | internal/runner/runner.go:159-177 | the loop computes the function that PortBindingsExactly is about |
| Runner.MakeBinds | internal/runner/runner.go:182-203 | the loop computes the function that BindsExactly is about |
| Settings.SplitColonExactly | internal/runner/runner.go:164 | the two parts are what stands before and after the first colon |
| Settings.PublishesPortExactly | internal/runner/runner.go:164-166 | a setting publishes a port exactly when what follows its first colon parses to it |
| Settings.BindsExactly | internal/runner/runner.go:182-203 | the binds are exactly those of mounts of declared volumes, under their Docker names; nothing else of the host is mounted |
| Settings.PortBindingsExactly | internal/runner/runner.go:159-177 | the ports bound are exactly those published, each to the host port of the last setting that publishes it |
| Runner.DeployService | internal/runner/runner.go:106-309 | the body of the loop in terms of the daemon's calls |
| Runner.CreateVolumes | internal/runner/runner.go:85-103 | the volume loop visits every volume once and goes on after failures |
| Runner.DeployServices | internal/runner/runner.go:106-309 | the service loop stops at the first failure, and otherwise visits every service once |
| Runner.Execute | internal/runner/runner.go:64-314 | Execute for the orders in which it visits the maps; an error is returned exactly when the result has one |
| Runner.StopAndRemove | internal/runner/runner.go:620-633 | stop, then remove, up to the first failure |
| Runner.MatchesSlug | internal/runner/runner.go:588-605 | the label test and the loop over the names give the matching predicate |
| Runner.Stop | internal/runner/runner.go:571-618 | Stop over a listing: the new daemon, the counts, and an error exactly when the listing or a container failed |
| Runner.ReconcileOne | internal/runner/runner.go:650-684 | a listed container is started exactly when it is managed and not running, and counted once |
| Runner.ReconcileContainers | internal/runner/runner.go:637-690 | ReconcileContainers over a listing: the new daemon and the two counts |
| Deployments.NamesInjective | internal/runner/runner.go:86-107 | container and volume names tell services and volumes of a slug apart |
| Deployments.SlugsShareNamesExactly | internal/runner/runner.go:86-107 | two slugs can share a container name exactly when one is the other with a hyphen and anything, and a volume name with an underscore |
| Deployments.PlaceFrame | internal/runner/runner.go:206-309 | with any failures only containers of the service's name change, and a new one is made as wanted |
| Deployments.PlaceRunsExactly | internal/runner/runner.go:209-307 | when a service is reported running, and when it then runs |
| Deployments.DeployFrame | internal/runner/runner.go:106-309 | deploying a service, with any failures, changes only containers of its name, and none without an image |
| Deployments.WantedFields | internal/runner/runner.go:107-247 | every setting of the container wanted for a service: name, image or built tag, environment, ports, binds and the three labels |
| Deployments.VolumeFields | internal/runner/runner.go:85-98 | driver and labels of a volume |
| Deployments.DeployWithoutImage | internal/runner/runner.go:112-148 | a pull that fails, a build that fails, and a build without an archive fail the service and leave every container and volume |
| Deployments.DeployOutcome | internal/runner/runner.go:112-307 | what is reported of a service by the answers to its five calls |
| Deployments.LoopFrameStep | internal/runner/runner.go:106-309 | one more service keeps the frame of all before |
| Deployments.LoopReports | internal/runner/runner.go:106-309 | the output holds the services visited, all running but for the last of a failed run |
| Deployments.VolumesOnlyAdded | internal/runner/runner.go:82-103 | the volume loop loses and alters no volume and touches no container |
| Deployments.ExecuteReports | internal/runner/runner.go:64-314 | no error exactly when the status is completed, and then every service is in the output, running; otherwise the services visited are, all running but the last |
| Deployments.ExecuteRunsExactly | internal/runner/runner.go:106-309 | Execute reports a service running exactly when its image was had, it was created and started, and no exit was seen; without its image Execute fails there and touches no further container |
| Deployments.InvalidUntouched | internal/runner/runner.go:67-74 | a graph that is not valid is not executed at all |
| Deployments.ExecuteFrame | internal/runner/runner.go:64-314 | the frame of both loops together |
| Deployments.ExecuteLeavesAlone | internal/runner/runner.go:106-258 | a container outside the graph's names, or of a service not reached or without an image, is untouched |
| Deployments.ExecuteMakes | internal/runner/runner.go:206-309 | every container added was made for a service of the output, and one reported running is there under its ID, made as wanted |
| Deployments.CompletedExactly | internal/runner/runner.go:64-314 | a completed run, whatever failed on the way, ends with exactly one container per service, made for it, and with the others as before |
| Deployments.ExecuteGood | internal/runner/runner.go:64-314 | with every call succeeding, exactly which containers there are afterwards |
| Deployments.AllVolumesDeployed | internal/runner/runner.go:82-103 | with every call succeeding, exactly which volumes there are afterwards |
| Deployments.OrderIndependent | internal/runner/runner.go:82-314 | if a run completes under some order it does under every order, with the same containers, IDs apart, and the same volumes |
| Deployments.RedeployConverges | internal/runner/runner.go:82-314 | a second run completes too and changes neither |
| Deployments.CompletesExactly | internal/runner/runner.go:64-314 | with every call succeeding a run completes exactly when the graph is valid and every build has a source archive |
| Lifecycle.StopLoopFrame | internal/runner/runner.go:584-610 | the loop handles each match once, and a match counted as stopped is gone |
| Lifecycle.StopExactly | internal/runner/runner.go:571-618 | stopped + errors = matches, other containers and all volumes unchanged, and without error exactly the matches are gone |
| Lifecycle.RemovedExactly | internal/runner/runner.go:620-633 | a container is stopped and removed exactly when it is there and both calls work |
| Lifecycle.StopGood | internal/runner/runner.go:571-618 | with every call succeeding Stop removes exactly the containers that match |
| Lifecycle.MatchesExactly | internal/runner/runner.go:586-605 | which containers Stop takes, by the label and by every listed name |
| Lifecycle.DeployThenDelete | internal/runner/runner.go:64-618 | after Execute, completed or not, an error-free Stop of the slug leaves exactly the old containers that do not match it |
| Lifecycle.WantedMatches | internal/runner/runner.go:588-605 | when Stop takes a container made for another slug's service |
| Lifecycle.SlugsInterfereExactly | internal/runner/runner.go:580-605 | Stop of one slug takes containers made for another exactly when one is the other followed by a hyphen and anything |
| Lifecycle.EmptySlugTakesUnlabelled | internal/runner/runner.go:588-590 | with an empty slug Stop would take labelled containers without a slug label, which no other slug takes by label |
| Lifecycle.ReconcileExactly | internal/runner/runner.go:637-690 | restarted + errors = managed containers not running, others unchanged, and without error none is left |
| Lifecycle.ReconcileByLabels | internal/runner/runner.go:648-687 | a container without a deployment ID in its label is never changed; after a pass without errors every one with one runs, and each that did not was tried once |
| Lifecycle.DeployedComesBack | internal/runner/runner.go:217-684 | a container Execute made for a graph with a deployment ID runs after the next pass without errors |
| Lifecycle.ReconcileGood | internal/runner/runner.go:637-690 | with every call succeeding there are no errors |
| Lifecycle.ReconcileTwice | internal/runner/runner.go:637-690 | an immediate second pass restarts and changes nothing |
| Lifecycle.StepKeeps | internal/runner/runner.go:64-690 | no operation loses or alters a volume or removes a container it does not threaten |
| Lifecycle.VolumesOutliveEverything | internal/runner/runner.go:82-103 | over any sequence of operations with any failures every volume stays as it was |
| Lifecycle.UnthreatenedSurvive | internal/runner/runner.go:64-690 | a container that no operation of a sequence threatens is there at the end, the same but for running or not |
| Serve.LastWins | cmd/serve/main.go:383-401 | of several services of one name the last is deployed |
| Serve.NamedOnly | cmd/serve/main.go:383-401 | no name but those of the payload's services is deployed |
| Serve.SpecCarries | cmd/serve/main.go:403-409 | what of a payload gets into the spec, the version as its decimal text |
| Serve.Kernel.EmitDeploymentEvent | cmd/serve/main.go:528 | one call, acknowledged or refused |
| Serve.Emit | cmd/serve/main.go:524-579 | refused calls up to the first acknowledged one or up to the limit, three for progress and five for a result, with 2^(n-1) - 1 seconds of sleep for n calls |
| Serve.BurstAcknowledged | cmd/serve/main.go:524-573 | of one emission at most one call is acknowledged |
| Serve.AcknowledgedInOrder | cmd/serve/main.go:515-579 | what the kernel acknowledges is a subsequence of what the job emits |
| Serve.CallsBounded | cmd/serve/main.go:515-579 | every call bears the job's IDs and one of its events, within its limit |
| Serve.CallsInOrder | cmd/serve/main.go:515-579 | no call goes back to an earlier stage, whether the calls before it were acknowledged or not |
| Serve.ResultLostExactly | cmd/serve/main.go:550-579 | the result is lost exactly when the last five calls all carry it and are refused |
| Serve.JobProtocol | cmd/serve/main.go:367-579 | in at most 14 calls, acknowledged or not, the kernel gets the stages and the result in order and each true of the job: success means completed, and later stages only then; it acknowledges each at most once |
| Serve.TraceExactly | cmd/serve/main.go:415-477 | the events of a job that never runs, of one that fails and of one that is done, with "building" first if something is built and "pulling" if not |
| Serve.FateExactly | cmd/serve/main.go:411-477 | how far a job gets, by compilation, runner, daemon and execution; nothing is touched before the last; something is built exactly when a service that is deployed asks for it |
| Serve.CollectServices | cmd/serve/main.go:383-401 | the loop computes the function that LastWins is about |
| Serve.AnyBuild | cmd/serve/main.go:436-442 | whether some service is to be built |
| Serve.RunJob | cmd/serve/main.go:451-477 | from Execute to the result: starting, deployed and success exactly when it completed |
| Serve.Launch | cmd/serve/main.go:420-477 | from the creation of the runner on: the events, and what happens to the daemon |
| Serve.ProcessDeployment | cmd/serve/main.go:367-478 | a payload that parses makes exactly one of the event traces, the result last, and does to the daemon what its fate says; one that does not parse does nothing |
| Serve.ProcessDeploymentDelete | cmd/serve/main.go:482-510 | without a slug nothing is touched; otherwise Stop of that slug |
| Serve.PayloadGraph | cmd/serve/main.go:403-409 | when the graph of a payload is valid |
| Serve.NetworksNeverSucceed | cmd/serve/main.go:403-409 | a payload with a service that names a network never succeeds and touches nothing |
| Serve.SucceedsExactly | cmd/serve/main.go:367-478 | with every call succeeding, exactly which payloads are reported deployed |
| Serve.SuccessMeansContainers | cmd/serve/main.go:475-477 | success is reported only with a container for every service under its name |
| Serve.VolumesNeverMounted | cmd/serve/main.go:403-409 | no job creates a volume or mounts one |

## Left out

- StatusUMC, ListUMCs, health checks: they read the records and change nothing.
- InstallUMC, findExecutable, sanitizedEnv, PID files, name validation: input and output, or one small test; where StartUMC depends on them they are parameters.
- Liveness of StopUMC and Shutdown, and a second Wait or a second Shutdown: the state machine says what a step does when it is taken, not that it is taken; closing stopChan twice is modelled as closing it once.
- Data races on Running and RestartPolicy, which the source reads and sets without the record's lock: each access is one atomic step.
- Monitor.MonitorUMC: without interference by other goroutines, and only for as many passes as are given; the state machine has all interleavings.
- Monitor.Manager.StartUMC: sequential; the state machine interleaves it, and the monitor it launches runs there.
- Monitor.Manager.RestartUMC: sequential, like the two calls it is made of.
- Monitor.Manager.StopUMC: the signal, the timeout and the kill are not modelled; it stands for a call whose Wait has returned.
- Gzip and tar byte formats, file modes: an archive is a sequence of entries and may break off anywhere.
- Following links inside the file tree: a path through a link leads somewhere the model does not say. From then on nothing is claimed of the tree, and every call may succeed or fail.
- A relative destination: the only caller passes the path of a fresh temporary directory.
- Secrets.SecondPassHarmless: one way only, since whether inserted text completes a placeholder depends on all of the output; the exact condition is on that output.
- Packing.RoundTrip: for directories of regular files and subdirectories, since the packer writes links without their targets.
- Downloading the source, the Dockerfile check and the build itself: one call that may fail; container logs are not modelled.
- Fixed container settings (capabilities, memory, read-only root, restart policy) and the order of environment variables: the environment is a map.
- Parsing a container port: an unknown function of the text.
- Message texts, timestamps and the exposure settings of services: they decide nothing here.
- The subscriber's receive loop and jobs that run at the same time: one job at a time.
- HTTP and gRPC handlers, recipe fetching, logging, wiring: plumbing around libraries.
