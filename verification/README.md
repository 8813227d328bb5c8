# Portdock: a verified model

Portdock is a self-hosted platform: users deploy projects as Docker containers,
create managed databases, and reach both through a panel.  This project models
the parts of its backend (and one hook of its frontend) that keep state in two
places at once or that edit text in place, and proves what they guarantee.

- **Two worlds.** `World` holds the database rows and the Docker engine
  (`Docker`).  `Containers`, `Deployments`, `Projects` and `Databases` give every
  request a specification function and a class whose methods work call by call
  on the store and the engine and are proved to compute that function.
  `Requests` makes them steps of one state machine, each with an arbitrary
  choice of failing calls (`Faults`).  `Lifecycle` says exactly which steps keep
  rows and engine in agreement and lifts this to whole runs; `Reconcile` says
  what a restart achieves, `Effects` what the other requests achieve and undo;
  `Orphans` says exactly which steps leave a container that nobody names;
  `PortSafety` proves that the three port allocators of `Ports` never collide;
  `NameClash` is the run in which a container of another user is lost.
- **Lockout.** The login automaton and its rate bound.
- **Text.** `EnvFile`, `SshConfig`, `Fail2Ban`, `Csv` and `Slug` treat the
  editors and printers, each against a reader or a plain specification.
- **Small algorithms.** `LineEditor`, `Archive`, `EnvMerge`, `Retention` and
  `Pages`.

Each request is one atomic step.  Database writes do not fail; Docker, build,
Nginx and file steps may.  Clock readings, parsed settings, listings of
directories and objects, and the outcome of foreign calls are parameters.

## What does not hold

Several properties one would expect hold only under a condition; the model keeps
the code as it is, and the lemma named gives the exact condition or the run.

- A resource update removes containers *by name*.  Zip and Dockerfile
  deployments read the clock twice, so their row's name is not their container's
  name, and the removal can hit another user's container
  (`NameClash.ForeignContainerRemoved`, `Lifecycle.UpdateResourcesKeeps`).
- A restart whose Nginx write or last restart fails after the recreation leaves
  a RUNNING row with a stopped container (`Lifecycle.RestartKeeps`).
- A resource update that only changes the internal port drops the volume
  (`Reconcile.RebuiltMountMatchesExactlyWhen`).
- A suspension or resumption writes the status for all rows even if a call
  failed (`Lifecycle.SuspendKeeps`, `Lifecycle.ResumeKeeps`).
- A container that is made and then cannot be inspected or started stays behind
  without a row, and so does an old one whose removal fails
  (`Orphans.StepLeavesNoOrphanExactlyWhenTidy`).
- A lockout limit that is not a number never locks
  (`Lockout.GuessingIsBoundedExactlyWhen`, `Lockout.UnparsableLimitNeverLocks`),
  and the minutes reported can be 0 (`Lockout.LockedReport`).
- A `.env` write is lost when `KEY=` occurs in the middle of a line only, or when
  a later line assigns the key too (`EnvFile.WriteReadsBackExactlyWhen`,
  `EnvFile.CommentLosesWrite`), and `$` patterns in a value that replaces another
  are expanded (`EnvFile.LandedWriteReadsBackExactlyWhen`,
  `EnvFile.LineIsWrittenExactlyWhen`, `EnvFile.PatternIsExpanded`).
- An sshd_config update is shadowed by later or indented directives, and a
  directive without a value swallows the line below it
  (`SshConfig.UpdateReadsBackExactlyWhen`, `SshConfig.WriteKeepsOtherExactlyWhen`,
  `SshConfig.IndentedPortWins`, `SshConfig.BareDirectiveSwallowsPort`).
- A ban time in days is read as seconds (`Fail2Ban.BanTimeIsReportedExactlyWhen`,
  `Fail2Ban.DaysReadAsSeconds`).
- Unquoted CSV fields with commas, quotes or line breaks do not read back
  (`Csv.ExportReadsBackExactlyWhen`).
- A terminal opened on a connection that has a session is never logged
  (`LineEditor.StepKeepsLoggedExactlyWhen`), of pasted lines only the first counts
  (`LineEditor.PastedLinesAreLost`), and a backspace inside a chunk erases nothing
  (`LineEditor.ChunkActsLikeCharactersExactlyWhen`).
- An archive whose wrapper holds an entry of the wrapper's own name cannot be
  flattened (`Archive.ArchiveService.FlattenDirectory`).
- The two environment routes differ on global values that are empty or hold `=`
  (`EnvMerge.RoutesAgreeExactlyWhen`).

## Model

| member | source | states |
|---|---|---|
| `Lifecycle.StepKeepsExactlyWhenSafe` | backend/src/containers/containers.service.ts:168-628 | From a state in which every container row and every managed database names a present container of its own and says RUNNING exactly when it runs, one request - any of the fourteen, with any combination of failing calls - leads to such a state again if and only if the request is safe: only a restart, a resource update, a suspension or a resumption can be unsafe, each under a condition on the state and the failing calls before it |
| `Lifecycle.RunStaysCoherentExactlyWhenSafe` | backend/src/containers/containers.service.ts:26-628 | Over every finite run: rows and engine agree after every prefix if and only if each request was safe in the state it met |
| `Lifecycle.FaultFreeRunsStayCoherent` | backend/src/containers/containers.service.ts:168-563 | In every run in which no call fails and no row has the Docker name of a container that is not its own, rows and engine agree after every request |
| `Lifecycle.FaultFreeRequestsAreSafe` | backend/src/containers/containers.service.ts:212-563 | Without failing calls the only danger is a row whose name is the Docker name of somebody else's container |
| `NameClash.ForeignContainerRemoved` | backend/src/containers/containers.service.ts:414-492 | A run of three requests without a single failing call (zip deployment, creation by another user, resource update) that ends with the other user's row naming a container that is gone |
| `Orphans.StepLeavesNoOrphanExactlyWhenTidy` | backend/src/containers/containers.service.ts:26-563 | From a state in which rows and databases agree with the engine and every present container is named by one of them, one request, with any failing calls, leaves a container that nobody names if and only if it is untidy: a creation or a deployment that makes its container and then fails, or a removal of an old container that fails while its row goes or takes a new id |
| `Orphans.RunStaysMatchedExactlyWhenSafeAndTidy` | backend/src/containers/containers.service.ts:26-628 | Over every finite run: rows and databases on one side and containers on the other match one to one, with agreeing states, after every prefix if and only if each request was safe and tidy in the state it met |
| `Orphans.FaultFreeRunsStayMatched` | backend/src/containers/containers.service.ts:26-628 | In every run in which no call fails and no row has the Docker name of a container that is not its own, that match holds after every request: each present container is named by exactly one row or database |
| `Orphans.FaultFreeRequestsAreTidy` | backend/src/containers/containers.service.ts:26-563 | No request leaves a container behind unless some call fails |
| `Orphans.RestartLeaves` | backend/src/containers/containers.service.ts:212-375 | A restart leaves its old container behind exactly when it makes a new one and the removal of the old one fails |
| `Orphans.UpdateResourcesLeaves` | backend/src/containers/containers.service.ts:414-563 | A resource update leaves a container behind exactly when its new container is made and cannot be started, or is recorded although the old one outlived all removal attempts |
| `Orphans.DeployLeaves` | backend/src/deployments/deployments.service.ts:94-301 | A deployment leaves a container behind exactly when its container is made and then cannot be inspected or started, or an old container of the project could not be removed |
| `Orphans.CreateDatabaseLeaves` | backend/src/databases/databases.service.ts:29-188 | Provisioning leaves a container behind exactly when it is made and then cannot be inspected or started |
| `Lifecycle.RestartKeeps` | backend/src/containers/containers.service.ts:212-375 | A restart keeps the agreement exactly when it need not recreate, or the recreation and, for a row that says RUNNING, the Nginx write and the last restart succeed, or the old container survived in its old state |
| `Lifecycle.UpdateResourcesKeeps` | backend/src/containers/containers.service.ts:414-563 | A resource update keeps the agreement exactly under the stated condition on names, removals, creation and start |
| `Lifecycle.SuspendKeeps` | backend/src/admin/admin-projects.service.ts:187-220 | A suspension keeps the agreement exactly when no stop call of a container of a RUNNING row of the project fails |
| `Lifecycle.ResumeKeeps` | backend/src/admin/admin-projects.service.ts:222-255 | A resumption keeps the agreement exactly when a start call fails at most for containers that run already |
| `Lifecycle.DeployKeeps` | backend/src/deployments/deployments.service.ts:53-301 | A deployment keeps the agreement whatever calls fail |
| `Lifecycle.StepCoherent` | backend/src/containers/containers.service.ts:168-628 | The frame of every request: the new state agrees exactly when the few claimants the request touched agree with it |
| `Reconcile.RestartReconciles` | backend/src/containers/containers.service.ts:212-375 | From any valid state, with any failing calls: a restart that returns has left its row naming a running container whose internal port is bound to exactly the host port of the row, or to none if the row has none; no other row changed.  The row names a new container exactly when the old one was gone or bound otherwise, and that container has the row's name, image (tag `latest` if empty), volume and no binding but the row's |
| `Reconcile.RestartSucceedsExactlyWhen` | backend/src/containers/containers.service.ts:212-375 | Under any failing calls, a restart returns normally if and only if inspection, restart and the Nginx update go through and either nothing drifted or a new container can be made under a name that is free by then, and Nginx be told |
| `Reconcile.SecondRestartKeepsContainer` | backend/src/containers/containers.service.ts:212-375 | A restart right after a successful one changes nothing, whatever fails then: same container id, no recreation |
| `Reconcile.UpdateRebuildsExactlyWhen` | backend/src/containers/containers.service.ts:414-563 | An update that returns gives the row the requested volume and internal port and changes no other; the row names a new container if and only if another volume or another internal port is asked for, and otherwise the engine is as before.  The new container runs exactly when the row says RUNNING and has the row's name and image, the volume of the request, and one binding, from the requested internal port (the row's, if missing or 0) to the row's host port |
| `Reconcile.ChangedVolumeArrives` | backend/src/containers/containers.service.ts:429-492 | A request that names another volume than the row's ends with the row and its container both having it |
| `Reconcile.UpdateSucceedsExactlyWhen` | backend/src/containers/containers.service.ts:414-563 | Under any failing calls: when exactly an update returns, with and without a rebuild; a row without a container is only edited; a failing update changes no row |
| `Reconcile.RebuiltMountMatchesExactlyWhen` | backend/src/containers/containers.service.ts:414-492 | After a rebuild the new container has the volume its row records exactly when the request named the volume or the row has none; its port binding is the one of the row, unless the request set the internal port to 0 |
| `Effects.RestartBindsAllocatedPort` | backend/src/containers/containers.service.ts:212-609 | Allocating a port moves the row only; the next restart that returns binds the container to it, by a new container exactly when the port was not bound yet |
| `Effects.RestartDropsClearedPort` | backend/src/containers/containers.service.ts:212-628 | Clearing the port changes the row only; the next restart that returns leaves the container without a binding |
| `Effects.CreationSucceedsExactlyWhen` | backend/src/containers/containers.service.ts:26-105 | A creation succeeds if and only if the caller owns the project, the port is given or one is free, the name is free and no call fails; a failing one changes no row and leaves at most one stopped container |
| `Effects.CreationAchieves` | backend/src/containers/containers.service.ts:26-105 | A successful creation adds one STOPPED row with the requested name, image, tag (`latest` unless given) and internal port, on the given port or the least free one of 8000..9999, and one new stopped container of that name and image that it names, with that one binding and no volume; nothing else changes |
| `Effects.RequestsAreRefusedExactlyWhen` | backend/src/containers/containers.service.ts:141-166 | For every request: what does not exist is not found, what belongs to somebody else is forbidden (but to an administrator updating resources), and neither changes anything; an owner is never turned away so, but for a row without a container and for a port that cannot be had |
| `Effects.StartAchieves` | backend/src/containers/containers.service.ts:168-188 | A start succeeds exactly when the container is there and the call goes through; what it changes, and nothing on failure |
| `Effects.StopAchieves` | backend/src/containers/containers.service.ts:190-210 | A stop succeeds exactly when the container is there, runs, and the call goes through; nothing changes on failure |
| `Effects.SuspensionAchieves` | backend/src/admin/admin-projects.service.ts:187-220 | The project is INACTIVE, its RUNNING rows are STOPPED, the containers they named are stopped except those whose call failed; nothing else is switched |
| `Effects.ResumptionAchieves` | backend/src/admin/admin-projects.service.ts:222-255 | The project is ACTIVE, all its rows RUNNING, all its containers started except those whose call failed; nothing else is switched |
| `Effects.AllocationSucceedsExactlyWhen` | backend/src/containers/containers.service.ts:565-609 | A port is refused if and only if it lies outside 19000..25999 or the unordered query meets another row that holds it; otherwise only the row moves, and an error is reported exactly when a changed port cannot be written for the project's domain |
| `Effects.ProvisioningSucceedsExactlyWhen` | backend/src/databases/databases.service.ts:29-188 | A database request succeeds if and only if its kind is PostgreSQL or MySQL, the name is free and no call fails; then the row and its running container have the kind's image and internal port (5432, 3306), its volume, and the least port from 40000 that no row and no database holds |
| `Effects.DatabaseRemovalAchieves` | backend/src/databases/databases.service.ts:309-348 | Removing a database takes its row whatever fails; its container stays exactly when the removal call failed |
| `Effects.RemovalUndoesCreation` | backend/src/containers/containers.service.ts:377-412 | Removing the container just created brings back the rows and the containers |
| `Effects.RemovalAchieves` | backend/src/containers/containers.service.ts:377-412 | A removal takes the row whatever fails; the container stays exactly when its removal call failed, and then still runs exactly when stopping it failed too |
| `Effects.StopUndoesStart` | backend/src/containers/containers.service.ts:168-210 | A stop after a start of a stopped container brings back the whole state |
| `Effects.ResumptionUndoesSuspension` | backend/src/admin/admin-projects.service.ts:187-255 | Resuming right after a suspension brings back the whole state of a project all of whose containers ran |
| `Effects.ProjectRemovalAchieves` | backend/src/projects/projects.service.ts:175-213 | The removal of a project takes its rows and deployments and no others, whatever fails; of its containers exactly those stay whose removal failed |
| `Containers.ContainersService.Create` | backend/src/containers/containers.service.ts:26-105 | The method on store and engine computes the specification of container creation, error cases included |
| `Containers.ContainersService.Start` | backend/src/containers/containers.service.ts:168-188 | Likewise for start |
| `Containers.ContainersService.Stop` | backend/src/containers/containers.service.ts:190-210 | Likewise for stop |
| `Containers.ContainersService.Restart` | backend/src/containers/containers.service.ts:212-375 | Likewise for restart, with its flags `recreateFailed` and `inspectFailed` and the reassigned container id |
| `Containers.ContainersService.Remove` | backend/src/containers/containers.service.ts:377-412 | Likewise for removal |
| `Containers.ContainersService.UpdateResources` | backend/src/containers/containers.service.ts:414-563 | Likewise for resource updates, with the three removal attempts |
| `Containers.ContainersService.AllocatePort` | backend/src/containers/containers.service.ts:565-609 | Likewise for moving a container to a port of 19000..25999 |
| `Containers.ContainersService.RemovePort` | backend/src/containers/containers.service.ts:611-628 | Likewise for clearing the port |
| `Docker.Daemon.Start` | backend/src/docker/docker.service.ts:87-99 | Starting a running container succeeds (304), a missing one fails, a failing call changes nothing |
| `Docker.Daemon.Stop` | backend/src/docker/docker.service.ts:101-104 | Stopping a stopped or missing container is an error |
| `Docker.Daemon.Remove` | backend/src/docker/docker.service.ts:111-114 | Forced removal takes running containers too |
| `Docker.Daemon.Create` | backend/src/docker/docker.service.ts:312-314 | A creation issues a fresh id, or fails on a taken name and changes nothing |
| `Deployments.DeployEndsConsistently` | backend/src/deployments/deployments.service.ts:94-301 | Wherever a step fails, a deployment either returns with the project ACTIVE and the deployment Success at 100 %, or throws with the project FAILED and the deployment Failed, at 100 % if its container had been launched and at 0 otherwise; a GitHub deployment has recorded its repository either way; which ending it is, is decided by a condition on the state before; nothing else of any project or deployment changes |
| `Deployments.FailedLaunchTouchesNothing` | backend/src/deployments/deployments.service.ts:94-215 | A deployment that fails up to the start of its new container leaves every row and every earlier container as it was; at most one new container stays behind, stopped and named by no row |
| `Deployments.LaunchedDeploymentReplaces` | backend/src/deployments/deployments.service.ts:788-823 | Once the new container runs the project has exactly one row, naming it on the chosen port; every old container whose removal succeeded is gone and the others are untouched; rows of other projects are unchanged - also when a later step turns the deployment into a failure |
| `Deployments.LaunchedRow` | backend/src/deployments/deployments.service.ts:160-240 | The new row and container carry the custom internal port if one is given and not 0, else the detected one, bound to the chosen host port and nothing else; the image `portdock-` and project id with the tag `v` and build stamp; no volume; and names that differ by their stamps only, equal if and only if the deployment comes from GitHub or the clock gave the same reading twice |
| `Deployments.DeploymentsService.Deploy` | backend/src/deployments/deployments.service.ts:53-301 | The method with its `try` and compensating `catch` computes the deployment specification |
| `Deployments.DeploymentsService.CleanupOldContainers` | backend/src/deployments/deployments.service.ts:788-823 | The deletion loop, in any order of the old rows and with any failing removals, computes its specification |
| `Projects.ProjectsService.Suspend` | backend/src/admin/admin-projects.service.ts:187-220 | The loop over the containers computes the suspension specification |
| `Projects.ProjectsService.Resume` | backend/src/admin/admin-projects.service.ts:222-255 | Likewise for resumption |
| `Projects.ProjectsService.Remove` | backend/src/projects/projects.service.ts:175-213 | Likewise for the removal of a project with its containers |
| `Databases.CreateIsAllOrNothing` | backend/src/databases/databases.service.ts:29-188 | Provisioning either adds one row that names a running container bound to the least free port from 40000, or leaves the database table as it was; other rows never change |
| `Databases.DatabasesService.Create` | backend/src/databases/databases.service.ts:29-188 | The method with its placeholder row and clean-up computes the provisioning specification |
| `Databases.DatabasesService.Remove` | backend/src/databases/databases.service.ts:309-348 | Likewise for removal |
| `PortSafety.PortsNeverCollide` | backend/src/containers/containers.service.ts:565-586 | In every run whose container creations name no host port, all host ports of containers and databases stay pairwise distinct, although the three allocators do not look at each other's rows |
| `PortSafety.PortStepKeepsExactlyWhenSafe` | backend/src/containers/containers.service.ts:26-58 | One request keeps ports distinct if and only if it is not a creation that goes through with an explicit port in use |
| `Ports.FreeContainerPort` | backend/src/containers/containers.service.ts:630-640 | The bounded scan answers the least free port of 8000..9999, and none exactly when all are used |
| `Ports.ContainerPortAvailable` | backend/src/containers/containers.service.ts:630-640 | The bounded scan fails exactly when 2000 used ports lie in its range |
| `Ports.FreeDatabasePort` | backend/src/databases/databases.service.ts:749-768 | The unbounded scan ends, answers the least free port from 40000, and passes no more ports than there are used ones at or above 40000 |
| `Ports.DatabasePortIsTcpPort` | backend/src/databases/databases.service.ts:749-768 | The answer is a TCP port if and only if some port of 40000..65535 is unused, in particular when at most 25535 used ports lie at or above 40000 |
| `Ports.ScanContainerPorts` | backend/src/deployments/deployments.service.ts:776-786 | The loop computes the bounded scan |
| `Ports.ScanDatabasePorts` | backend/src/databases/databases.service.ts:762-767 | The `while` loop ends by a pigeonhole measure and computes the unbounded scan |
| `Lockout.LockoutRateBound` | backend/src/auth/auth.service.ts:95-135 | For every configured limit that is a number, with m the limit or 1 if that is more, and a clock that never runs backwards: the wrong passwords compared in any window are at most m for each started 15 minutes plus m for each login completed in the window, from any sane state and over any run |
| `Lockout.GuessingBound` | backend/src/auth/auth.service.ts:95-135 | In particular somebody who never guesses right gets at most m * (T div 900000 + 1) comparisons in T milliseconds, for every limit that is a number |
| `Lockout.GuessingBoundIsExact` | backend/src/auth/auth.service.ts:95-135 | That bound is exact: for every limit that is a number and every window some run of guesses attains it |
| `Lockout.GuessingIsBoundedExactlyWhen` | backend/src/auth/auth.service.ts:95-135 | Some number bounds the guesses compared in a window, over all runs of wrong guesses, if and only if the configured limit is a number |
| `Lockout.LockedReport` | backend/src/auth/auth.service.ts:95-102 | A login turned away by the lock changes nothing and reports the least number of whole minutes that cover the time left: at most 15, and at least 1 exactly when the deadline did not pass between the two readings of the clock |
| `Lockout.NthGuessLocksExactlyWhen` | backend/src/auth/auth.service.ts:104-135 | Of the wrong guesses compared on a new account the n-th locks it, with the deadline 15 minutes after its second clock reading, if and only if n is a multiple of the limit (of 1 if the limit is less, of none if it is no number); every other one is just invalid |
| `Lockout.AnswersExactlyWhen` | backend/src/auth/auth.service.ts:95-165 | Every answer of every run on a new account, from the run alone: turned away exactly while a lock set before stands; locked exactly when the guess makes the invalid ones since the last lock or login as many as the limit; asked for the second factor, or logged in, exactly when the password is right |
| `Lockout.UnparsableLimitNeverLocks` | backend/src/auth/auth.service.ts:107-117 | A configured limit that is not a number switches the lockout off: every guess of any run is compared |
| `Lockout.UserRow.Login` | backend/src/auth/auth.service.ts:95-165 | The login branch on the user row computes one step of the automaton |
| `Lockout.UserRow.Verify2fa` | backend/src/auth/auth.service.ts:519-529 | A completed second factor clears counter and deadline |
| `EnvFile.WriteReadsBackExactlyWhen` | backend/src/admin/system.service.ts:824-840 | For every value on one line without a double quote that is appended, not written, or holds no `$` pattern: re-reading the file after a write gives the old map with the key set to the value if and only if `KEY=` did not occur, or exactly one line assigned it, or the value was there already; otherwise the file's meaning is unchanged |
| `EnvFile.LandedWriteReadsBackExactlyWhen` | backend/src/admin/system.service.ts:824-840 | Where the write reaches the only assignment of the key or may append one, and an expansion brings no line break from the text around it: the value reads back if and only if `KEY=` did not occur or the value holds no `$` before `$`, `&`, a backtick or a single quote |
| `EnvFile.OwnLineValueReadsBackExactlyWhen` | backend/src/admin/system.service.ts:824-840 | For a value without a `$` before a backtick or a single quote that proviso always holds: in every file its write lands in, it reads back if and only if `KEY=` did not occur or the value holds no pattern |
| `EnvFile.LineIsWrittenExactlyWhen` | backend/src/admin/system.service.ts:829-832 | In every file with a match the update writes the line it means to write - the value in double quotes behind key and `=` - if and only if the value holds no such pattern |
| `EnvFile.AppendedLine` | backend/src/admin/system.service.ts:833-835 | Where `KEY=` does not occur the file gets that line behind a line break |
| `EnvFile.PatternsStandFor` | backend/src/admin/system.service.ts:829-832 | Each of the four patterns stands for a `$`, the old line, the text before it, the text behind it; every other pair for itself |
| `EnvFile.SafeInEveryFileExactlyWhen` | backend/src/admin/system.service.ts:824-840 | A value reads back from every file its write lands in if and only if it holds no such pattern |
| `EnvFile.ExpandedMayReadBack` | backend/src/admin/system.service.ts:829-832 | The proviso on line breaks is needed: a file and a value with two patterns that replaces another value and yet reads back |
| `EnvFile.SecondWriteWins` | backend/src/admin/system.service.ts:824-840 | Two writes of one key leave the very text that the second alone leaves, unless a `$` pattern is expanded |
| `EnvFile.FileFollowsEnvironmentExactlyWhen` | backend/src/admin/system.service.ts:820-878 | A whole request of settings without `$` patterns changes the meaning of the file exactly as it changes `process.env` if and only if each setting is settable in the text it meets |
| `EnvFile.IndependentRunIsSettable` | backend/src/admin/system.service.ts:820-878 | When no key ends in another, it is enough that each setting is settable in the text before the request |
| `EnvFile.UpdateIsSimultaneous` | backend/src/admin/system.service.ts:820-878 | That change is one simultaneous update: every setting given reads back, every other key keeps its value |
| `EnvFile.BackupKeysAreIndependent` | backend/src/admin/system.service.ts:842-874 | The twelve backup keys satisfy the side condition: none ends in another |
| `EnvFile.BackupSettingsReadBack` | backend/src/admin/system.service.ts:842-878 | A backup request reads back setting by setting, each of the twelve under its own variable, and leaves every other variable alone, when each is settable in the file before |
| `EnvFile.CommentLosesWrite` | backend/src/admin/system.service.ts:827-833 | A comment that mentions the key loses every write of it, for every key and value |
| `EnvFile.PatternIsExpanded` | backend/src/admin/system.service.ts:829-832 | The failing input: a value `$&` is expanded to the old line, which is what reads back |
| `EnvFile.EnvEditor.UpdateEnv` | backend/src/admin/system.service.ts:771-784 | The closure rewrites the captured text and the environment as specified, and does nothing for an undefined value |
| `EnvFile.EnvEditor.UpdateConfig` | backend/src/admin/system.service.ts:786-790 | The calls of the closure, one setting after the other, compute the fold over the settings |
| `SshConfig.UpdateReadsBackExactlyWhen` | backend/src/admin/security.service.ts:219-305 | For every file whose lines hold no terminator but a closing carriage return: after an update the reader returns the written root login if and only if no active line below the written one says otherwise, and the port likewise - unless the second write swallows the port, then if and only if the lines above it give that port |
| `SshConfig.WriteReplacesLines` | backend/src/admin/security.service.ts:261-286 | A write replaces the lines from the start to the end of its match, the first of which begins with the directive or its comment, by one line that keeps what is left of the last of them, or adds one on top; all other lines are unchanged and in order |
| `SshConfig.WriteKeepsOtherExactlyWhen` | backend/src/admin/security.service.ts:261-286 | A write keeps the reading of the other directive if and only if it does not swallow it: the lines it replaces hold the last argument of the other directive, none follows, and the lines above give another |
| `SshConfig.PortSwallowsNothing` | backend/src/admin/security.service.ts:261-270 | A write of the port never swallows the root login |
| `SshConfig.BareDirectiveSwallowsPort` | backend/src/admin/security.service.ts:272-284 | The failing input: a commented root login without a value above the only `Port` line; the update takes that line for the value, and the reader falls back to 22 |
| `SshConfig.IndentedPortWins` | backend/src/admin/security.service.ts:231-271 | An indented `Port` line is read but not seen by the writer: after the update the reader still returns the old port |
| `SshConfig.SecurityService.GetSshConfig` | backend/src/admin/security.service.ts:219-246 | The loop over the lines computes the last active directive of each kind, with the defaults 22 and no |
| `SshConfig.SignedNumber` | backend/src/admin/security.service.ts:231-232 | The reader takes a plus or minus sign in front of the port |
| `SshConfig.SecurityService.UpdateSshConfig` | backend/src/admin/security.service.ts:248-305 | Ports outside 1..65535 and a missing file are errors that change nothing; a failing restart comes after the file is written |
| `Fail2Ban.ConfigurationReadsBack` | backend/src/admin/security.service.ts:128-213 | Whatever retry limit and ban minutes are configured, the status reports exactly them |
| `Fail2Ban.DefaultsAreReported` | backend/src/admin/security.service.ts:128-165 | Without a client, without a jail file, and for a number no line of the file sets, the status reports 5 retries and 10 minutes |
| `Fail2Ban.TemplateText` | backend/src/admin/security.service.ts:184-197 | The file an enabling request leaves, in full |
| `Fail2Ban.BanTimeIsReportedExactlyWhen` | backend/src/admin/security.service.ts:128-165 | For every number and every unit of none, s, m, h and d, whatever stands before and behind it in the file: the reported minutes are the true ones, rounded down, if and only if the unit is not the day or the number is 0 |
| `Fail2Ban.DaysReadAsSeconds` | backend/src/admin/security.service.ts:147-153 | The failing input: a ban time in days is reported as if it were seconds |
| `Fail2Ban.SecurityService.ConfigureFail2Ban` | backend/src/admin/security.service.ts:167-213 | Enabling writes the template, disabling deletes the file; the order of failing commands decides what is left |
| `Fail2Ban.SecurityService.GetFail2BanStatus` | backend/src/admin/security.service.ts:128-165 | The status method computes the two first matches, with the defaults 5 and 10 minutes |
| `Csv.ExportReadsBackExactlyWhen` | backend/src/admin/admin-activity.service.ts:205-228 | A reader for section 2 of RFC 4180 (LF accepted) turns the export back into the header and one nine-field record a log, descriptions exact whatever they hold, if and only if none of the eight unquoted fields holds a comma, a quote or a line break |
| `Csv.ExportShowsEveryField` | backend/src/admin/admin-activity.service.ts:205-228 | In an export that reads back, the cell of each log under each of the nine column names of the header is that field of the log, with `System`, `-` and the empty text for what is missing |
| `Csv.RecordReadsBackExactlyWhen` | backend/src/admin/admin-activity.service.ts:217-227 | One printed line is read as its fields exactly when the unquoted ones are plain |
| `Csv.QuotedReadsBack` | backend/src/admin/admin-activity.service.ts:226 | A quoted text with doubled quotes is read back exactly, whatever it holds |
| `Csv.QuoteNeverReadsBack` | backend/src/admin/admin-activity.service.ts:217-225 | An unquoted field that begins with a quote is never read as itself |
| `Slug.SlugIsJoinedWords` | backend/src/projects/projects.service.ts:35-39 | The passes compute the maximal runs of letters and digits of the lower-cased name, joined by single hyphens |
| `Slug.SlugIsIdempotent` | backend/src/projects/projects.service.ts:35-39 | The slug of a slug is that slug |
| `Slug.SlugIsLabelOrEmpty` | backend/src/projects/projects.service.ts:35-39 | A slug has the letter-digit-hyphen shape of section 2.1 of RFC 1123 (length aside), or is empty exactly when the name holds no letter and no digit |
| `Slug.SlugIsEmptyExactlyWhen` | backend/src/projects/projects.service.ts:35-39 | The slug is empty if and only if the name holds no letter of either case, no digit, and none of the two foreign characters whose lower case holds a letter |
| `Slug.SlugIgnoresCase` | backend/src/projects/projects.service.ts:35-39 | Names that differ in the case of their letters only have the same slug |
| `LineEditor.EditorsAgree` | backend/src/terminal/terminal.gateway.ts:183-228 | Whatever one browser types in whatever chunks, and whatever other clients do meanwhile, server and browser hold the same line and the recent list is the last ten logged commands, newest first |
| `LineEditor.ReturnSubmitsTheLine` | backend/src/terminal/terminal.gateway.ts:183-228 | After any text in any chunks, and whatever other clients do meanwhile, a return logs exactly one command, for the client's container, and puts it on top of the browser's ten-entry list: the old line, the printable text and the rest of the line in the chunk with the return, without the blanks at either end; a blank text does neither; both lines are empty afterwards |
| `LineEditor.BackspaceUndoesCharacter` | backend/src/terminal/terminal.gateway.ts:217-226 | Typing a character and a backspace brings back both lines, the log and the list |
| `LineEditor.LeavingForgets` | backend/src/terminal/terminal.gateway.ts:123-181 | Closing a connection or turning it to a log stream forgets its line and container and nobody else's |
| `LineEditor.TypingNeedsTerminal` | backend/src/terminal/terminal.gateway.ts:183-194 | Without an open terminal nothing a client types has any effect |
| `LineEditor.ChunkingDoesNotMatter` | backend/src/terminal/terminal.gateway.ts:222-226 | Typing reaches the line the same however it is cut into chunks |
| `LineEditor.ConnectedEditorsAgreeExactlyWhen` | backend/src/terminal/terminal.gateway.ts:56-121 | From a first connection on, the two agree over all typing if and only if the browser's line was empty: connecting empties the server's line only |
| `LineEditor.ChunkActsLikeCharactersExactlyWhen` | backend/src/terminal/terminal.gateway.ts:217-226 | A chunk of typing acts like its characters typed one by one if and only if none of them is a backspace that would meet a character |
| `LineEditor.PastedLinesAreLost` | backend/src/terminal/terminal.gateway.ts:195-216 | Of a chunk with a return only the text before the first return counts |
| `LineEditor.StepKeepsLoggedExactlyWhen` | backend/src/terminal/terminal.gateway.ts:56-121 | Every open terminal stays logged if and only if none is opened on a connection that has a session already |
| `LineEditor.ReconnectedTypingIsNotLogged` | backend/src/terminal/terminal.gateway.ts:84-92 | After a terminal is opened on a connection that has a session nothing its client types is logged, over any run, while the two lines go on agreeing |
| `LineEditor.TerminalSession.OnData` | frontend/src/hooks/useTerminalSession.ts:113-140 | The browser's handler computes the editing step and the ten-entry list |
| `LineEditor.TerminalGateway.HandleTerminalInput` | backend/src/terminal/terminal.gateway.ts:183-228 | The server's handler computes the same editing step and logs the command |
| `LineEditor.TerminalGateway.HandleConnectTerminal` | backend/src/terminal/terminal.gateway.ts:56-121 | The connect handler sets the client's records and then cleans up an existing session, as the source does |
| `LineEditor.TerminalGateway.HandleConnectAppLogs` | backend/src/terminal/terminal.gateway.ts:123-181 | The log handler cleans up and opens a log stream, which no keyboard writes to |
| `LineEditor.TerminalGateway.CleanupSession` | backend/src/terminal/terminal.gateway.ts:317-325 | The clean-up removes session, line and container record, only if there is a session |
| `Archive.ArchiveService.FlattenDirectory` | backend/src/archive/archive.service.ts:16-29 | With one subdirectory, in every order of the listing, every path loses its first component and leads to the same node, and the wrapper is gone - unless an entry has the wrapper's own name: then the renames stop there, and every path below the wrapper still leads to its node, one level up if its entry was listed before; in all other cases nothing changes |
| `Archive.NothingIsLostHalfway` | backend/src/archive/archive.service.ts:23-25 | Where the renames stopped, every file is still reachable, one level up or where it was |
| `EnvMerge.RoutesAgreeExactlyWhen` | backend/src/deployments/deployments.service.ts:126-169 | The record route (zip, GitHub) and the list route (Dockerfile) give a key, the Node version apart, the same last-wins value if and only if the project sets it, or no global variable does, or the global value is not empty and holds no `=` |
| `EnvMerge.NodeVersionIsSet` | backend/src/deployments/deployments.service.ts:138-141 | The record route always sets a non-empty Node version, the list route only if a variable does |
| `EnvMerge.NodeVersionIs` | backend/src/deployments/deployments.service.ts:126-141 | It is the project's, or else the recorded global one, or else 22; an empty one counts as none |
| `EnvMerge.MergeRecord` | backend/src/deployments/deployments.service.ts:126-141 | The loop over the global entries and the merge of the project's variables compute the record |
| `EnvMerge.RecordEnv` | backend/src/deployments/deployments.service.ts:166-169 | The pushed entries are the port and the record's entries in order |
| `EnvMerge.ListEnv` | backend/src/deployments/deployments.service.ts:629-635 | For every key the list means the project's variable, or else the last global one, or else, for `PORT`, the port |
| `Retention.RetentionKeepsNewest` | backend/src/admin/db-backup.service.ts:145-167 | Of its own files the policy lets go of exactly the oldest over the limit, every kept one being at least as new as every deleted one, and touches no other file; stated for every limit, also one that is negative or not a number |
| `Retention.FailuresDeleteNothingElse` | backend/src/backup/backup.service.ts:96-123 | Whatever deletions fail, the files to be kept and all others stay |
| `Retention.DeletionStopsAtFirstFailure` | backend/src/backup/backup.service.ts:96-123 | A file over the limit is deleted if and only if neither it nor a newer one over the limit fails to be deleted |
| `Retention.PoliciesCommute` | backend/src/backup/backup.service.ts:96-123 | The policies for `.sql` and `.sql.gz` over the shared directory give the same directory in either order, whatever deletions fail |
| `Retention.BackupDirectory.CleanupOldBackups` | backend/src/admin/db-backup.service.ts:145-171 | Only local backups are cleaned up; the loop computes the policy |
| `Retention.BackupDirectory.EnforceRetentionPolicy` | backend/src/backup/backup.service.ts:96-123 | The loop computes the policy with the limit 7 |
| `Pages.PagesPartitionTheRows` | backend/src/activity-logs/activity-logs.service.ts:103-123 | For a limit of at least 1 the pages put together are the whole list, each row once; none is empty, all but the last are full, and past the last there is nothing |

## Left out

- Overlapping requests: two deployments of one project, or two port scans, at the same time can disturb each other; every statement is about requests one at a time.
- Lookup of containers by id prefix, image removal, container logs and statistics, and the engine's networks and volumes as objects of their own.
- Memory and CPU limits and restart policies of containers: rows and containers can differ in them, and the model does not carry them.
- Nginx: a write of a configuration is a step that succeeds or fails; texts, certificates and reloads are not modelled.
- Builds, git clones, archive extraction, tar streams and registry answers: each is a step that succeeds or fails.
- Database writes that fail, and activity log entries, events and notifications.
- The start, stop, restart, configuration, password and backup requests of managed databases: they repeat the container requests without their reconciliation.
- `Deployments.DeploymentsService.Deploy`: one method for the three handlers, which run the same steps; they differ in the names, the repository and the environment, which are inputs or in `EnvMerge`.
- `Lockout.UserRow.Login`: suspended accounts, unknown e-mail addresses, tokens and the Turnstile check come before or after the automaton; the password comparison is a boolean.
- `EnvFile.WriteReadsBackExactlyWhen`: the reader is the plain meaning of the format (comments, one assignment a line, double quotes, last wins), not every escape of the dotenv library; keys are names of letters, digits and `_`, and values with a line break or a double quote are outside it.
- `EnvFile.LandedWriteReadsBackExactlyWhen`: does not say which values with a `$` before a backtick or a single quote read back when they copy a line break from the text around the match; whether one does then depends on the lines that the copied text makes (`EnvFile.ExpandedMayReadBack`), and `EnvFile.OwnLineValueReadsBackExactlyWhen`, `EnvFile.LineIsWrittenExactlyWhen` and `EnvFile.SafeInEveryFileExactlyWhen` hold without that proviso.
- `SshConfig.UpdateReadsBackExactlyWhen`: for files whose lines hold no line terminator but a closing carriage return (a stray carriage return or one of the two Unicode separators lets `^` match inside a line). The port is an integer.
- `SshConfig.SecurityService.GetSshConfig`: a file that exists but cannot be read is not modelled.
- `Fail2Ban.ConfigurationReadsBack`: the two numbers are naturals.
- `Fail2Ban.BanTimeIsReportedExactlyWhen`: units of one letter, as the reader knows them; fail2ban's longer units (weeks, months, years), sums of units and negative times are not modelled.
- `Csv.ExportReadsBackExactlyWhen`: dates and times are given as the two texts the export prints.
- `Slug.SlugIsJoinedWords`: the lower-casing is exact for what the passes can see of it (the letters a to z and the two foreign characters that yield one); the check for an existing domain and its random suffix are not modelled.
- `LineEditor.EditorsAgree`: the commands a page sends without the keyboard (`executeCommand`) reach the server only; and characters are whole ones, where the source counts UTF-16 units.
- `Archive.ArchiveService.FlattenDirectory`: symbolic links and renames that fail for other reasons than a name clash.
- `EnvMerge.RoutesAgreeExactlyWhen`: project keys hold no `=`; the global setting is given as its list of pairs.
- `Pages.PagesPartitionTheRows`: the list is fixed between the pages; filters and page numbers below 1 are left to the database library.
- The users' own CSV export: it joins bare fields and one quoted description as the administrators' one does, which is modelled. The dashboards, trends, metrics and settings, and the other pages of the frontend, are not modelled: they show what single queries return, and no statement here depends on them.
