# dijex-api: verified model

This project models the parts of the dijex administration API that carry algorithms, protocols or
invariants, and proves what they promise. `dafny verify dfyconfig.toml` checks everything.

- **Commands sent over SSH** (`ShellWords`, `DockerCommands`). A printer of command lines and an
  independent reader, the word splitting of a POSIX shell (IEEE Std 1003.1, Shell Command Language,
  sections 2.2.1, 2.2.2 and 2.3). The two are inverse for every argument vector that has no NUL.
- **Combined remote scripts** (`Markers`). The output of one script is cut back into blocks by marker
  lines, some glued to the end of data. The Go code ranges over a map, so the parser is a relation
  first; it is a function exactly when no marker is a proper suffix of another, and then it undoes the
  script's printer.
- **Log tails** (`TailWriter`). A bounded buffer shifted in place refines "the last `max` bytes".
- **Deploy and purge** (`Remote`, `Runner`, `Deploy`, `Purge`). Step protocols against a remote host
  that may answer anything: the answer to a command is any function of the commands so far. For the
  properties of the host itself, a host of containers and images on which an answered command has its
  effect and containers may exit or restart by themselves; each theorem names the answers it needs to
  be true.
- **Session tokens** (`Tokens`). Login, authentication, logout and the database trigger that revokes
  tokens, over all runs and all interleavings of a login with other events.
- **Registries** (`Registries`, `Paging`). Transactions on a table with a unique name and a partial
  unique index for the default row, and the paged listing with its 64-bit offset.
- **CPU usage** (`CpuUsage`). The `/proc/stat` parser, wrapping counters, and the law between the total
  row and the cores.
- **Authentication challenges** (`Challenge`). The `WWW-Authenticate` parser against the printer of
  section 2.1 of RFC 7235.
- **Service and container lists** (`Systemd`, `Workers`, `Inspect`, `StableSort`). Batches, in-place
  enrichment, the worker pool under every schedule, and the stable sort that makes results unique.
- `Text` and `Decimal` hold the string and number functions of the Go library that these use.

A method that changes state is proved against a function of the old state; the theorems are about
those functions. Where code and comments disagree, the model follows the code: the truncation flag of
the log tail (`TailWriter.DocumentedFlag`), the "exact" name filter of `docker ps`
(`Remote.NameFilterExactIff`), a purge that reports success after silent failures
(`Purge.SilentFailureLooksPurged`) or after one failed listing, the rest of its answers being true
(`Purge.ImageFilterForgets`), and a far page that lists the first rows
(`Paging.WrappedPageIsExactIff`).

Four of the `Registries` lemmas read one branch of the step function back and are helpers:
`SuccessStores`, `FailureChangesNothing`, `WhoDeactivates` and `PingTellsTheTruthIff`. The results
about the table are `RunsAreSound`, `DefaultIsARegister` and `DeletedNameIsTaken`.

## Model

| member | source | states |
|---|---|---|
| ShellWords.CommandLineReadsBack | internal/remotedeploy/shell.go:53-61 | for every mix of plain words and quoted values the shell reads the line as exactly the intended vector when no value holds NUL, and as no command otherwise |
| ShellWords.QuoteAll | internal/remotedeploy/runner.go:474-480 | joined with spaces, the quoted items read back as the very list of items |
| ShellWords.QuoteReadsBack | internal/remotelogs/shell.go:88-92 | one quoted string is one word, itself, if and only if it has no NUL |
| DockerCommands.BuildDockerRunCommand | internal/remotedeploy/runner.go:484-495 | the shell reads the assembled text as docker run -d --name, the name, one -p for each port in order whose word is the two port numbers in decimal around a colon, the policy if any, and the reference; as nothing when a value holds NUL |
| DockerCommands.RunCommandReadsBack | internal/remotedeploy/runner.go:484-495 | the same for every specification of a run, even with invalid parameters |
| DockerCommands.BuildDockerLogsCommand | internal/remotelogs/collector.go:102-127 | the shell reads the assembled text as docker logs --tail with "all" for -1, 10000 for 0 and else the number asked for in decimal, then the options that are set and the container |
| DockerCommands.LogCommandReadsBack | internal/remotelogs/collector.go:102-127 | the shell reads the logs command as that vector if and only if the values have no NUL |
| DockerCommands.CommandReadsBack | internal/remotedeploy/runner.go:192-348 | the same for every command a runner can send, so ids echoed by the host cannot change a command's shape |
| DockerCommands.RefIs | internal/remotedeploy/types.go:49-58 | an image reference is host, namespace and image, the empty ones left out, joined by slashes, a colon and the tag |
| Decimal.ItoaIff | internal/remotedeploy/runner.go:488 | a text is what Itoa prints for a number if and only if it is its decimal notation: a minus sign if negative, digits without a leading zero, and that value |
| Markers.SplitTrailingMarker | internal/remoteinfo/host.go:190-197 | finds some proper suffix marker, whichever the map order offers, or reports that there is none |
| Markers.SplitByMarkers | internal/remoteinfo/host.go:141-186 | the loop yields a result that some sequence of map orders allows |
| Markers.DeterministicIffSuffixFree | internal/remotedocker/shell.go:34-83 | the map order can never be observed, for any text, if and only if no marker is a proper suffix of another |
| Markers.SplitUndoesPrint | internal/remoteinfo/host.go:133-186 | parsing printed sections gives exactly each marker with its block, trimmed, whether the next marker has its own line or is glued on |
| Markers.SplitRecoversBlocks | internal/remotesystemd/shell.go:26-68 | with distinct markers: one entry for each block and nothing else |
| Markers.GluedLosesIndentation | internal/remoteinfo/host.go:165-176 | what gluing costs any block of several lines is the indentation of its last line, no more; a blank last line counts for nothing either way |
| Markers.GluedSingleLine | internal/remoteinfo/host.go:165-176 | a one-line block loses nothing by being glued |
| Markers.TrimmingFirstIsHarmless | internal/remotesystemd/shell.go:20-24 | trimming the whole output before splitting, as the run helpers do, never changes the blocks |
| Markers.NamedMarkersAreSafe | internal/remoteinfo/cpu.go:37-39 | any set of ===NAME=== markers satisfies both conditions of the theorems above |
| Markers.CallSitesAreDeterministic | internal/remoteinfo/host.go:54-66 | at every call site two map orders give the same blocks |
| TailWriter.TailOfStream | internal/remotelogs/shell.go:26-50 | after any writes: the last min(max, total) bytes, the total, and exactly when the flag is up |
| TailWriter.ChunkingIsInvisible | internal/remotelogs/shell.go:26-50 | bytes kept and total do not depend on how the stream was cut |
| TailWriter.NotTruncatedIsComplete | internal/remotelogs/shell.go:26-50 | a lowered flag means the whole stream is in the buffer |
| TailWriter.DocumentedFlag | internal/remotelogs/types.go:64-65 | the flag means "more than max bytes" if and only if the stream did not come as one chunk of exactly max bytes |
| TailWriter.DocumentedFlagFails | internal/remotelogs/types.go:64-65 | one byte written to a one-byte tail raises the flag |
| TailWriter.Writer.Write | internal/remotelogs/shell.go:26-50 | the in-place writer follows the specification and reports the full length of the chunk |
| TailWriter.Writer.Shift | internal/remotelogs/shell.go:39-42 | the overlapping copy leaves exactly the last bytes |
| TailWriter.Writer.Append | internal/remotelogs/shell.go:43-48 | appending keeps the old bytes and adds the chunk, in place or in a larger array |
| TailWriter.Drain | internal/remotelogs/shell.go:62-86 | a whole session leaves the tail of its stream, its length, and a flag that is up whenever something was lost |
| Remote.CollectLines | internal/remotedeploy/runner.go:419-441 | the loop with its seen map collects the ids of one listing |
| Remote.CollectIds | internal/remotedeploy/runner.go:419-441 | adds exactly the listed ids, after those already collected, and repeats none |
| Remote.FindsNothingIff | internal/remotepurge/runner.go:254-281 | a search finds nothing if and only if its listings, failed or not, print nothing but whitespace |
| Remote.SaysRunningIff | internal/remotedeploy/runner.go:328-343 | an inspection says running if and only if it begins with "true" and a bar and has another bar after that |
| Remote.FindExisting | internal/remotepurge/runner.go:254-281 | asks the listings in order and collects the ids they printed, failed listings included |
| Remote.OthersUntouched | internal/remotedeploy/runner.go:192-238 | if stop and rm name only certain containers, a whole run leaves all others to themselves: same container, stopped and replaced by nobody |
| Remote.GoneStaysGone | internal/remotedeploy/runner.go:219-238 | a container once gone does not come back |
| Remote.NewcomersAreNamed | internal/remotedeploy/runner.go:286-307 | whatever appears during a run bears the name of a started container |
| Remote.NameFilterExactIff | internal/remotedeploy/runner.go:419-433 | the anchored name filter selects, among valid names, the given one only, if and only if it has no dot |
| Remote.DottedNameSelectsOther | internal/remotedeploy/validate.go:70-71 | a valid dotted name whose filter selects another container as well |
| Runner.Result.SetStatus | internal/remotedeploy/runner.go:364-372 | changes the first step of that name and no other |
| Runner.Result.MarkRemainingNotRun | internal/remotedeploy/runner.go:384-397 | exactly the later steps without a status become not_run |
| Runner.Result.ComputeSuccess | internal/remotedeploy/runner.go:399-409 | success is raised if and only if every step is ok or skipped |
| Runner.ShapesExclude | internal/remotedeploy/runner.go:26-88 | the three report shapes exclude each other and fix the position of the failure |
| Runner.FirstFailedStep | internal/service/server_service.go:723-771 | names the first failed step; on a well-shaped report it says "unknown error" only for a success |
| Runner.ServerStatusOf | internal/service/server_service.go:586-594 | the stored status is OK exactly for a completed run and never carries "unknown error" |
| Deploy.RunDeploy | internal/remotedeploy/runner.go:26-88 | the step methods, updating one result in place, produce exactly the specified report and command log |
| Deploy.DeployIsWellShaped | internal/remotedeploy/runner.go:26-88 | for every remote behaviour a report is unavailable, completed, or failed at one step with only not_run after it; image removal never fails a run |
| Deploy.DeployOutcome | internal/remotedeploy/runner.go:26-348 | every run from the answers to its literal commands: each step is not_run after a failure, else failed or passed as its answers say, skipped where nothing was to do; the run succeeds if and only if all seven go well; and its log and container id |
| Deploy.HardStopIff | internal/remotedeploy/runner.go:443-454 | a failed stop counts if and only if its message is not empty and mentions, in any case, neither "is not running" nor "no such container" |
| Deploy.DeployIsDisciplined | internal/remotedeploy/runner.go:192-307 | stop and rm name exactly the containers found, and docker run is asked at most once, with the given parameters |
| Deploy.DeployOrder | internal/remotedeploy/runner.go:26-88 | docker run is asked only after login, removal of everything found, and pull have succeeded |
| Deploy.PasswordStaysOffTheCommandLine | internal/remotedeploy/runner.go:95-159 | two deploys that differ in well-formed passwords, on remote sides that may tell them apart, send the same command lines and report the same if these two runs were given the same answers; only the stdin of docker login differs |
| Deploy.LoginPipesThePassword | internal/remotedeploy/shell.go:31-50 | the only login is the second command, and what is piped into it is the longest prefix of the password that does not end in CR, LF, TAB or a blank |
| Deploy.LoginIsAskedIff | internal/remotedeploy/runner.go:102-117 | a login is asked if and only if docker is there, user and sanitised password are not empty, and the password has no control character |
| Deploy.LoginCommandLine | internal/remotedeploy/runner.go:119-149 | the shell reads docker login, the given host, -u, the given user, --password-stdin; when the trimmed host is empty or one of four names of Docker Hub in any case, there is no host and the user is lower-cased letter by letter |
| Deploy.TargetsAreTheMatches | internal/remotedeploy/runner.go:419-441 | with true listings the targets are the containers that name or image selects, each once |
| Deploy.UnmatchedUntouched | internal/remotedeploy/runner.go:192-238 | a container that neither filter selects is left to itself, whatever the outcome |
| Deploy.RemovalPassed | internal/remotedeploy/runner.go:219-238 | once the removal step has passed no selected container is left |
| Deploy.AddsOnlyTheName | internal/remotedeploy/runner.go:286-307 | whatever a deploy adds bears the requested name |
| Deploy.SuccessRuns | internal/remotedeploy/runner.go:312-348 | a successful deploy leaves a running container of the requested name that did not exist before |
| Deploy.UndottedNameTouchesOnlyItself | internal/remotedeploy/runner.go:189-217 | for a name without a dot, containers of other names and images are left to themselves |
| Deploy.StepLogin | internal/remotedeploy/runner.go:95-159 | refuses a malformed password without asking, skips without credentials, else asks once and follows the answer; what it asks is the login of LoginCommandLine |
| Deploy.StepFindAndStop | internal/remotedeploy/runner.go:192-217 | lists, then stops what was found; an answer other than a hard error does not stop the run |
| Deploy.StepVerify | internal/remotedeploy/runner.go:312-348 | ok exactly when the named container is reported running |
| Purge.RunPurge | internal/remotepurge/runner.go:25-79 | the step methods produce exactly the specified report and command log |
| Purge.PurgeIsWellShaped | internal/remotepurge/runner.go:25-79 | for every remote behaviour a purge report has one of the three shapes; the find step never fails |
| Purge.PurgeOutcome | internal/remotepurge/runner.go:25-193 | every run from the answers to its literal commands, step by step; it succeeds if and only if docker is there, the containers found are removed, an image that is there is removed, and then two listings show nothing and the inspection fails |
| Purge.ImageRemovalIsAsked | internal/remotepurge/runner.go:148-168 | when the first image inspection succeeds the next command is rmi -f of the reference and the step is ok or failed as that is answered; otherwise no rmi is asked and the step is skipped |
| Purge.PurgeIsDisciplined | internal/remotepurge/runner.go:101-141 | stop and rm name exactly the containers found, and nothing is started |
| Purge.SuccessWasVerified | internal/remotepurge/runner.go:172-193 | a successful run ends with a listing and an image inspection |
| Purge.SuccessIsClean | internal/remotepurge/runner.go:172-193 | after a success docker ps would list no container for image or name, and the image reference is gone, if and only if the answers of the verification were true; a container of an image that has lost its reference is not listed |
| Purge.SuccessRemovesExactlyTheFound | internal/remotepurge/runner.go:122-141 | whatever was answered: of the containers there at the start, a successful purge has removed exactly those its first search found |
| Purge.SuccessMeansPurgedIff | internal/remotepurge/runner.go:170-193 | after a success every container that matched at the start and the image are gone if and only if the first search missed none and the last inspection told the truth |
| Purge.ImageFilterForgets | internal/remotepurge/runner.go:143-193 | on any host that has the image: one failed first listing, only true answers in the verification, a reported success, and all containers as before |
| Purge.SuccessRemovesMatches | internal/remotepurge/runner.go:122-141 | when the first search told the truth, success has removed every container that matched at the start, whatever was answered later |
| Purge.PurgeTouchesOnlyMatches | internal/remotepurge/runner.go:86-141 | when the first search told the truth, a purge, successful or not, leaves every container outside the matches to itself |
| Purge.SilentFailureLooksPurged | internal/remotepurge/runner.go:254-281 | any host whatever stays as it is behind a successful purge when the remote side fails everything after the probe without a word |
| Purge.StepVerifyPurged | internal/remotepurge/runner.go:172-193 | ok exactly when nothing was listed and the image inspection failed |
| Tokens.Database.UpdateStatus | migrations/000003_create_auth_tokens.up.sql:87-104 | the update with both employee triggers is the specified atomic change of both tables |
| Tokens.Database.InsertToken | internal/repository/postgres/auth_token_repository.go:28-72 | inserts if and only if key and hash are new and the employee exists |
| Tokens.Database.Revoke | internal/repository/postgres/auth_token_repository.go:134-146 | revokes a token that is not revoked yet and changes nothing else |
| Tokens.RunsAreConsistent | migrations/000003_create_auth_tokens.up.sql:24-38 | foreign key, unique hashes and unique e-mails hold in every run |
| Tokens.StatusAndDeletionAgree | migrations/000002_create_employees.up.sql:38-55 | with rows inserted in step, enabled and active (what login asks) are the same in every run |
| Tokens.AcceptsIff | internal/service/auth_service.go:70-109 | a principal comes back if and only if the row is unrevoked, unexpired and its employee ENABLED in the state read |
| Tokens.AnswersAre | internal/service/auth_service.go:78-108 | each rejection if and only if its reason holds and none that is looked for earlier: unknown, revoked, expired, disabled; a principal names owner, token and role |
| Tokens.RevocationIsFinal | internal/repository/postgres/auth_token_repository.go:131-146 | in every run a row keeps owner, hash and expiry, and time and reason of a revocation never change |
| Tokens.RevocationHasItsCause | migrations/000003_create_auth_tokens.up.sql:87-104 | every revocation in a run was made by one event that found the token unrevoked, a logout of it or a disable of its enabled owner, and has the time and the reason of that event |
| Tokens.WhatIsWritten | migrations/000002_create_employees.up.sql:38-55 | a change of status stamps or clears deleted_at and a touch stamps last_used_at; no other column of those rows changes |
| Tokens.RejectionIsFinal | internal/service/auth_service.go:85-97 | a token rejected as revoked or expired is never accepted again, even if the employee is enabled again |
| Tokens.TokenAcceptedIff | internal/service/auth_service.go:70-189 | any stored token of any run, its login interleaved or not, is accepted if and only if it has not expired, its employee is enabled, and since its insert there was no logout and no disable of the enabled employee |
| Tokens.TokenLivesUntilEnded | internal/service/auth_service.go:70-124 | if the employee was enabled at the insert, exactly until it expires, is logged out or its employee is disabled, whatever comes later |
| Tokens.AtomicRunsRevoke | migrations/000003_create_auth_tokens.up.sql:83-104 | when logins are atomic no disabled employee has an unrevoked token |
| Tokens.DisabledBranchUnreachable | internal/service/auth_service.go:92-96 | in such runs the employee-disabled answer never occurs |
| Tokens.LiveTokenOfDisabledIff | internal/service/auth_service.go:139-189 | in any run a disabled employee holds a live token if and only if a login read the employee before the latest disable, stored that token after it, and it was not logged out since |
| Tokens.OnlyStraddlingLoginsSurvive | migrations/000003_create_auth_tokens.up.sql:83-104 | gives that login: its read, the disable, and the insert that stored the token |
| Tokens.StraddlingLoginsSurvive | internal/service/auth_service.go:139-189 | every such login does leave a live token |
| Tokens.RaceLeavesLiveToken | internal/service/auth_service.go:139-189 | such a run exists, and its token works once the employee is enabled again |
| Tokens.AuthService.Login | internal/service/auth_service.go:133-208 | logged in if and only if e-mail and password are given and fit an active employee, nothing is faulty, and the new key and hash are free, and then it is exactly the login event; invalid credentials if and only if no active employee has that e-mail and password; all else changes nothing |
| Tokens.AuthService.Authenticate | internal/service/auth_service.go:70-109 | answers the verdict on the trimmed token's hash, or a failed read, and at most touches last_used_at, only on success |
| Tokens.AuthService.Logout | internal/service/auth_service.go:118-124 | is exactly the logout event |
| Registries.RegistryRepository.Create | internal/repository/postgres/registry_repository.go:31-84 | the transaction, failing at any stage or not, is the specified step |
| Registries.RegistryRepository.Update | internal/repository/postgres/registry_repository.go:278-338 | the transaction, failing at any stage or not, is the specified step |
| Registries.RegistryRepository.SoftDelete | internal/repository/postgres/registry_repository.go:89-104 | marks a live row deleted and takes its default flag; not found otherwise; a failing statement changes nothing |
| Registries.RegistryRepository.UpdateConnectionStatus | internal/repository/postgres/registry_repository.go:112-125 | writes the status columns of a live row and the active flag only when asked to |
| Registries.RunsAreSound | migrations/000004_create_registries.up.sql:14-57 | in every run names are unique, at most one live row is default, and deleted rows never are |
| Registries.IndexNeverRejects | migrations/000004_create_registries.up.sql:54-57 | the partial unique index never rejects an operation |
| Registries.FailureChangesNothing | internal/repository/postgres/registry_repository.go:31-84 | helper: an operation that fails, at whatever stage, leaves the table as it was |
| Registries.CreateSucceedsIff | internal/repository/postgres/registry_repository.go:49-84 | without a fault a create succeeds if and only if key and name are unused, deleted rows included |
| Registries.UpdateSucceedsIff | internal/repository/postgres/registry_repository.go:294-338 | without a fault an update succeeds if and only if its row is live and no other row has the name |
| Registries.DeleteSucceedsIff | internal/repository/postgres/registry_repository.go:86-104 | a soft delete succeeds if and only if its statement does and the row is live; the row then has the time of deletion |
| Registries.ErrorsAre | internal/repository/postgres/registry_repository.go:31-84 | which error a create or an update gives: a used key before a used name, a missing row before its name, a fault in its turn |
| Registries.SuccessStores | internal/repository/postgres/registry_repository.go:294-325 | helper: a successful operation stores exactly the requested columns of its row |
| Registries.OtherRowsKept | internal/repository/postgres/registry_repository.go:38-46 | other rows change only in that a new default takes the flag from the old one |
| Registries.DefaultIsARegister | internal/repository/postgres/registry_repository.go:31-104 | over every run flags, clearing and index behave as one optional id |
| Registries.DeletedIsFrozen | internal/repository/postgres/registry_repository.go:86-104 | a deleted row never changes again |
| Registries.DeletedNameIsTaken | migrations/000004_create_registries.up.sql:16 | the name of a deleted registry can never be used again |
| Registries.CheckIsRecorded | internal/service/registry_service.go:362-390 | a stored check leaves its status, time and message, which is empty when it connected; connect raises the active flag, ping sets it; no other column or row changes |
| Registries.ConnectTellsTheTruthIff | internal/service/registry_service.go:336-396 | connect never deactivates, and its report matches the row if and only if the row is still live and either a successful check was stored or the flag already is as reported |
| Registries.PingTellsTheTruthIff | internal/service/registry_service.go:475-532 | helper: the report of ping matches the row if and only if the row is still live and the flag was stored or, unstored, already is as reported |
| Registries.WhoDeactivates | internal/repository/postgres/registry_repository.go:106-125 | helper: only an update that says so or a failed ping makes a row inactive |
| Registries.RegistryService.ConnectRegistry | internal/service/registry_service.go:336-396 | refuses the nil id, a failed read, a missing or deleted row and an unreadable password, in this order and without a write; else the check is stored or only logged, and the flag a stored check leaves is reported |
| Registries.RegistryService.PingRegistry | internal/service/registry_service.go:475-532 | the same refusals; switches the flag both ways and reports the outcome of the check |
| Paging.BuildWhere | internal/repository/postgres/registry_repository.go:146-167 | the numbered conditions with their arguments select exactly the rows that match the filter |
| Paging.List | internal/repository/postgres/registry_repository.go:146-236 | returns the count and the LIMIT/OFFSET slice of the ordered matches |
| Paging.OrderIsUnique | internal/repository/postgres/registry_repository.go:177-198 | ordering by column and then id leaves one possible listing |
| Paging.PagesCoverListing | internal/service/registry_service.go:121-152 | pages 1 to the last, in a row, are the whole listing |
| Paging.PageSizes | internal/service/server_service.go:1073-1105 | pages before the last are full, the last is not empty, later ones are empty, sizes lie in 1..100 |
| Paging.ListingIsSorted | internal/repository/postgres/registry_repository.go:177-198 | the listing is sorted by updated_at, name, type or else created_at, downwards or upwards as asked, and by ascending id among equals |
| Paging.ReplyDescribesItself | internal/service/registry_service.go:121-183 | a reply carries the page, 1 if below; the size, 20 if below 1 and 100 if above; the number of matches; and the number of pages they fill |
| Paging.PagesListTheMatches | internal/service/registry_service.go:113-183 | together the pages show every matching row once, in the order asked for, and nothing else |
| Paging.ListRegistries | internal/service/registry_service.go:113-183 | the service's reply is the page at the clamped size and the 64-bit offset |
| Paging.WrappedPageIsExactIff | internal/service/registry_service.go:132-142 | the reply is the page asked for if and only if nothing matches, the offset fits, or the wrapped offset is past the end too |
| Paging.FarPageShowsFirstRows | internal/service/server_service.go:1073-1094 | page 2^62+1 of size 100 shows the first rows |
| CpuUsage.PercentInRange | internal/remoteinfo/cpu.go:160-179 | for all counters the percentage lies in [0, 100] and neither clamp ever acts |
| CpuUsage.PercentIsUsage | internal/remoteinfo/cpu.go:160-179 | the code computes the one number whose product with the total delta is a hundred times the busy time, or 0 |
| CpuUsage.PercentInTicks | internal/remoteinfo/cpu.go:111-179 | for counters that neither shrink nor overflow: times the growth of all eight counters it is a hundred times the growth of all but idle and iowait |
| CpuUsage.IdleBackwardsIsZero | internal/remoteinfo/cpu.go:160-179 | without overflow a decreasing idle time gives 0 because the wrapped idle delta exceeds the total delta |
| CpuUsage.IdleBackwardsIff | internal/remoteinfo/cpu.go:160-179 | whatever overflows, after an idle reading that fell by e the answer is not 0 if and only if the total reading grew by more than 2^64 - e |
| CpuUsage.OverflowHidesIdleBackwards | internal/remoteinfo/cpu.go:115-119 | an overflowing sum for which that happens |
| CpuUsage.TotalIsWeightedMean | internal/remoteinfo/cpu.go:49-58 | the total usage is the delta-weighted mean of the per-core usages, for any number of cores, also with zero deltas |
| CpuUsage.CollectUsage | internal/remoteinfo/cpu.go:49-58 | computes the total and, when the core counts agree, one usage for each core |
| CpuUsage.ParseProcStat | internal/remoteinfo/cpu.go:123-156 | the loop parses line by line with optional columns |
| CpuUsage.ProcStatReadsBack | internal/remoteinfo/cpu.go:121-156 | printed /proc/stat text reads back to its counters: any cores, numbered with gaps, guest columns different on every row, and other rows |
| CpuUsage.WrapIsModulo | internal/remoteinfo/cpu.go:111-119 | the counters' arithmetic is modulo 2^64 |
| Challenge.SplitParams | internal/registryclient/checker.go:315-339 | the loop over quotes and commas computes the specified pieces |
| Challenge.SplitKeepsTheText | internal/registryclient/checker.go:314-339 | cuts are at unquoted commas only, and joining restores the input if and only if it does not end in an unquoted comma |
| Challenge.SplitUndoesJoin | internal/registryclient/checker.go:314-339 | every list of well-cut pieces is what its joined text splits into |
| Challenge.ParseWWWAuthenticate | internal/registryclient/checker.go:287-312 | scheme and map are those of the specification for every header |
| Challenge.ParseUndoesPrint | internal/registryclient/checker.go:282-312 | any scheme, quote-free values in quotation marks and bare values come back, with optional blanks; a key without equals sign is passed over, and the last of equal keys wins |
| Challenge.DistinctKeysAllComeBack | internal/registryclient/checker.go:302-311 | with distinct keys every parameter that has a value comes back |
| StableSort.StableSortIsUnique | internal/remotesystemd/collector.go:118-125 | an order by key that keeps ties in place leaves one possible list |
| StableSort.StringLessIff | internal/remotesystemd/collector.go:118-125 | one name is less than another if and only if, where they first differ, it ends or has the smaller character |
| StableSort.SortedIsStable | internal/docker/collector.go:79-84 | the insertion sort is such a list |
| StableSort.StableSortPermutes | internal/docker/collector.go:79-84 | such a list is a permutation |
| Systemd.BatchesPartition | internal/remotesystemd/collector.go:98-108 | the batches are the names in order; sizes are 1..200 and all but the last are full |
| Systemd.BatchArguments | internal/remotesystemd/collector.go:108-109 | the quoted names of a batch read back as the names |
| Systemd.ParseShowBlock | internal/remotesystemd/collector.go:228-241 | the loop reads key=value lines, later keys winning |
| Systemd.ShowReadsBack | internal/remotesystemd/collector.go:196-241 | printed units, separated by empty lines, read back block by block |
| Systemd.ApplyShowProps | internal/remotesystemd/collector.go:243-271 | each of the columns takes the value printed under its own key: five keep what was listed when nothing is printed, enabled follows the prefix of the unit file state, the others are overwritten, numbers as signed 64-bit ones |
| Systemd.MemoryReadsBack | internal/remotesystemd/collector.go:267-268 | printed byte counts come out in their own columns, the all-ones value as -1 |
| Systemd.LoadReadsBack | internal/remotesystemd/collector.go:269-271 | printed CPU and task counts come out in their own columns |
| Systemd.ProcessReadsBack | internal/remotesystemd/collector.go:265-266 | printed pid and restart count come out in their own columns |
| Systemd.UnsetMaxIsTheConversion | internal/remotesystemd/collector.go:339-348 | the special case changes nothing: it is the 64-bit conversion, and only the all-ones value gives -1 |
| Decimal.ParseItoa | internal/remotesystemd/collector.go:329-332 | every 64-bit number is read back with its sign |
| Decimal.ParseOfNoNumber | internal/remotesystemd/collector.go:334-337 | a text with a bad character, or none at all, counts as 0, unless its leading digits overflow before it |
| Systemd.EnrichedEntry | internal/remotesystemd/collector.go:198-225 | length and names stay; an entry gets exactly the blocks headed by its name; an entry hidden by a later one of the same name stays |
| Systemd.EnrichFromShow | internal/remotesystemd/collector.go:198-225 | the in-place loop with its index map computes that |
| Systemd.OneAnswerEnriches | internal/remotesystemd/collector.go:196-225 | from one printed answer each service gets the properties printed for it, or keeps what was listed |
| Systemd.ServiceGetsItsProperties | internal/remotesystemd/collector.go:98-116 | through all batches: a service gets its unit's properties if its batch was answered and its block bears its name, else keeps what was listed, however other batches fared |
| Systemd.ReportHoldsTheProperties | internal/remotesystemd/collector.go:98-130 | for the collector itself, column by column under the literal keys: the report holds a listed service with the properties of its unit if its batch was answered and the first of the Names is its name, else as it was listed |
| Systemd.HeadNameIff | internal/remotesystemd/collector.go:211-216 | a block speaks for the first word of its Names and for no other name |
| Systemd.FailuresAre | internal/remotesystemd/collector.go:102-116 | as many errors as batches that failed |
| Systemd.ShowWriterSettles | internal/remotesystemd/collector.go:243-271 | writing a block twice is writing it once |
| Systemd.CollectServices | internal/remotesystemd/collector.go:102-130 | batches, enrichment and sort in place give the sorted enriched list and one error for each failed batch |
| Systemd.ReportIsStableSort | internal/remotesystemd/collector.go:118-128 | the report is the one stable permutation with failed services first, then activating, active, deactivating, inactive and all others, each by name |
| Workers.NeverStuck | internal/docker/collector.go:55-76 | with at most eight in flight some worker can always move until all are done |
| Workers.SchedulesAreBounded | internal/docker/collector.go:55-76 | no schedule takes more than four moves for each container |
| Workers.CompleteSchedulesAgree | internal/docker/collector.go:52-76 | every complete schedule fills slot i with the result of job i and leaves the same errors up to order |
| Workers.RunAll | internal/docker/collector.go:52-76 | with a free choice at every turn the pool ends, and ends with those results |
| Inspect.OneLinePerFailure | internal/docker/collector.go:63-70 | each failed inspect adds one error line and each success none |
| Inspect.SlotHoldsItsContainer | internal/docker/collector.go:269-379 | where every column of a collected container comes from, inspected or not: shortened ids, names without the slash, networks once each in ascending order; and the error line of a failed inspect |
| Inspect.Collect | internal/docker/collector.go:52-89 | list and count are the same for all schedules, errors are the same up to order |
| Inspect.ReportIsStableSort | internal/docker/collector.go:78-84 | running first, then by name, ties in list order; a permutation, and the only one |
| Inspect.SortForgetsIteration | internal/docker/collector.go:339-344 | sorting the keys of a map gives one answer for all iteration orders |
| Inspect.ListNetworks | internal/docker/collector.go:339-354 | the network list of a container does not depend on the map order |

## Left out

- SSH, HTTP, the Docker engine, D-Bus and the Postgres driver: a remote command is a call of an arbitrary function, a statement an atomic table operation; cancellation and timeouts are not part of this model.
- Other users of the same Docker host: only the runner's own commands, and containers that exit or restart by themselves, change the modelled host during a run. A container that ends by itself is kept; one started with --rm would vanish, so Deploy.UnmatchedUntouched, Purge.PurgeTouchesOnlyMatches and Purge.SuccessRemovesExactlyTheFound are about containers without it.
- DockerCommands.CommandReadsBack: does not model the redirection `>/dev/null 2>&1` that ends the image inspection command; it takes no part in the argument vector.
- Systemd.BatchArguments: covers the quoted names only, not the fixed words before them and the redirection `2>/dev/null` after them.
- Markers.TrimmingFirstIsHarmless: does not model that the run helpers also delete NUL bytes from the output before trimming it.
- ValidateParams as a whole: only the alphabet of container names is used; the other checks are one branch each.
- Human-readable messages, timings and timestamps in reports.
- Systemd.ApplyShowProps: does not model the timestamp and uptime columns and the parsing of systemd timestamps.
- The steps of the systemd collector before the batches (probe, version, unit list, the error for an empty list).
- Bcrypt, AES-GCM, HashToken and the token generator: password check, decryption and hash are parameters of the services.
- Physical deletion of employees and its cascade: no code path deletes one.
- A commit whose failure is reported although it took effect.
- Read anomalies between the COUNT and the page query: both see the same table.
- ILIKE patterns: the matching predicate is a parameter, so unescaped % and _ in a search are not judged.
- List for servers: it has the clamping, order and offset of the registries, with other filter columns.
- Floating-point rounding of percentages: they are exact reals.
- Collecting for remote logs around the tail writer: SSH plumbing; a session without buffers is not part of this model.
- The rest of mergeContainer: ports, mounts, limits and labels are copied.
- Invalid UTF-8: a Go string is a sequence of code points; lower-casing is modelled for ASCII only.
- TailWriter.Writer.Write: does not model the wrap-around of the 64-bit byte total, which needs an exabyte of log.
- Tokens.AuthService.Login: covers a login without anything between its read and its insert; an interleaved login is the pair of events that TokenAcceptedIff and LiveTokenOfDisabledIff are about. Normalisation of the e-mail is left to the caller.
- Tokens.AuthService.Authenticate: does the update of last_used_at, if at all, before it returns; one that comes later is a Touch event of the runs.
- Challenge.ParseUndoesPrint: quoted-pair escapes are outside its domain, as the parser does not know them.
