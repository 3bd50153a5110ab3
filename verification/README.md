# wg-monitor: crash safety, trust and reconciliation, verified

The deployment wizard (`cmd/deploy`) and the backend's command line (`cmd/backend`) of wg-monitor replace
live databases, binaries, host keys and tokens on machines that can fail or lose power at any moment. This
project models those procedures step by step in Dafny and proves what they keep, for every pattern of
failures, every moment of a crash and any number of files, runs or connections.

`dafny verify dfyconfig.toml` checks everything.

## How it is built

- `Disk.dfy`: a directory tree whose every command may fail. A copy may leave half a file, a rename is
  atomic, a removal may fail. `seen` holds every state a power loss could leave if finished commands are
  durable, `faults` counts injected failures. `Text.dfy` and `Numbers.dfy`: Go's string functions and decimal
  text. `RunningBest.dfy`: the running best of a list under any relation.
- `PiFiles.dfy`, `PiNames.dfy`, `PiScript.dfy`, `PiRestore.dfy`, `PiHint.dfy`: the restore on the Raspberry
  Pi: the shell script under `set -e` with its EXIT trap (IEEE Std 1003.1, XCU section 2.14, `set` and
  `trap`), the driver that stages, stops, runs and starts, and the commands it prints for a rollback by hand.
- `Updater.dfy`: binary swap, rollback and the update runner over unbounded runs.
- `KnownHosts.dfy`, `Pins.dfy`, `TokenCommit.dfy`: host-key rotation, certificate pins kept in a text file,
  and the two-phase change of an agent's token.
- `Quoting.dfy`: shell and SQL quoting against readers of both languages (IEEE Std 1003.1, XCU sections
  2.2.1, 2.2.2 and 2.2.3).
- `Probe.dfy`, `BackupStatus.dfy`, `Extract.dfy`, `Merge.dfy`, `Release.dfy`: the external probe, the
  backup status file, archive extraction, fleet reconciliation, release choice.

Commands, the network, prompts, killed processes and clocks are nondeterministic choices. Hashes are
function parameters about which nothing is known.

## What turned out not to hold

- The printed rollback commands bring every old file back after exit code 12, but not from every crash. Cut
  off while the copies are being made, they write a half copy over the live database
  (`PiHint.HintOverHalfCopy`). Cut off before any copy, they remove the `-wal` of a database that nothing had
  touched (`PiHint.HintBeforeAnyCopy`). The driver prints them after a lost connection too.
  `PiHint.HintRecoversIff` gives the exact condition: every file that existed has a whole copy, or has none yet
  and is not a side file.
- A rollback that fails can leave the old write-ahead log beside the new database, because the lines after the one
  that failed are run (`PiScript.FailedRollbackCanStray`). The script ends with 12 then and does not start the
  container; the printed commands put that right (`PiHint.HintAfterReplacement`).
- A host's first key is put behind the text of known_hosts as it is. If that does not end its last line, the
  new key is not on file and the last line's host has another one (`KnownHosts.GluedAlice`). The exact condition
  is in `KnownHosts.AppendReadsBackIff`; an append that breaks off leaves such a file.
- A bare IPv6 address loses a last group of one to five digits as if it were a port, so two addresses can share
  one name in known_hosts (`KnownHosts.AddressesShareName`), although the comment says they are not split.
- A certificate pin for a host with a space in its name is one for another host: `victim x` takes the pin of
  `victim` (`Pins.VictimLosesItsPin`). `Pins.OthersKeptIff` says exactly when the others keep theirs. A host whose
  name begins with `#` harms nobody, but is accepted again and again without comparison
  (`Pins.UnstorableIsNeverPinned`).
- If the staged token cannot be written, the wizard's environment keeps the new token
  (`TokenCommit.Install.TwoPhase`, outcome `NotStaged`). If only the last write fails, the next process that
  stages a token forgets the one the backend knows (`TokenCommit.StagingKeeps`). The staged token of `x`
  shares its name with the token of an agent called `x_staged` (`TokenCommit.StagedNameIsTaken`).
- One declared size near 2^63 passes the limit of the extraction loop (`Extract.LimitCanBePassed`, exact
  condition in `Extract.LimitHoldsIff`).
- Which release is newest can depend on the order of the list (`Release.RepublishedCandidate`). It does not,
  exactly when some release is newer than every other (`Release.NewestOfAnyOrderIff`). A running final release
  is not preferred to a candidate of its own version (`Release.ShouldPreferRunningRelease`).
- Normalising a MAC pin twice can change it (`Merge.PinIsStable`), and then a second merge can change the merged
  list (`Merge.PinMovesTwice`). `Merge.MergeAgain` gives the exact condition on the pins.
- Messages of the probe alternate for every history exactly if the state file did not begin as `down 0`, which
  the script never writes (`Probe.AlternateIff`).
- A rollback after a swap restores the binary exactly when there was one (`Updater.SwapAndRollBack`).

Where comments and code disagree the model follows the code: the container is not started after exit code
12 (`cmd/deploy/restore_pi.go:406` says it always is), and the release list is ordered by publication time
(`cmd/deploy/github.go:120-125` says the first of the list is taken).

## Model

| member | source | states |
|---|---|---|
| PiScript.RunScript | cmd/deploy/restore_pi.go:407-440 | every crash state loses nothing; exit codes 0/10/11/12 say truly where the live files are; 0 exactly with a whole archive and when no command failed; unless it ends with 12, no state has the write-ahead log of one database beside another; 12 takes two failures, and then each failure after the first costs one file at most; the container is started once on exactly these files, never after 12 |
| PiScript.Steps | cmd/deploy/restore_pi.go:429-438 | the guarded steps end at the first command that fails, or with the archive in place; they say whether replacement had begun, with complete copies if it had; the side files go before the new database comes |
| PiScript.Rollback | cmd/deploy/restore_pi.go:420-427 | success puts back the live set exactly, files that were absent included; every line is tried, so there are no more files that are not back than failures; the copies stay whole throughout |
| PiScript.FailedRollbackCanStray | cmd/deploy/restore_pi.go:420-427 | after a rollback whose line for the database alone failed, the old write-ahead log is beside the new database |
| PiScript.OnExit | cmd/deploy/restore_pi.go:428 | the trap turns what happened into the exit code, cleans up, and starts the container unless the rollback failed |
| PiScript.DropCopies | cmd/deploy/restore_pi.go:428 | after a failure before the replacement this run's copies go, live files stay |
| PiScript.PrepareAll | cmd/deploy/restore_pi.go:429-432 | it succeeds only with the whole archive, a database that is not empty, and the mode and owner of every file set |
| PiScript.SaveAll | cmd/deploy/restore_pi.go:432-435 | every existing file gets a whole copy before anything is replaced |
| PiScript.InstallAll | cmd/deploy/restore_pi.go:436-438 | database and stores come from the archive, side files are gone, nothing else changes |
| PiFiles.NothingLost | cmd/deploy/restore_pi.go:417-439 | at any step each live file is whole-old, whole-new or absent, and the old bytes are whole at the live name or its copy |
| PiFiles.UsageBound | cmd/deploy/restore_pi.go:303-305 | one file under its four names takes at most three times its old size and the archive's |
| PiFiles.SpaceBound | cmd/deploy/restore_pi.go:299-305 | from the first copy to the end of a rollback the restore never takes more than `2*live + staged` beyond the live bytes |
| PiFiles.SpaceBoundIsTight | cmd/deploy/restore_pi.go:299-305 | the bound is tight for the invariant: a state it allows, every move of a rollback failed, takes all of it |
| PiNames.PathsDiffer | cmd/deploy/restore_pi.go:409-438 | no two of the script's file names, for any stores and stamp, are the same string |
| PiRestore.RestoreBackupToPi | cmd/deploy/restore_pi.go:110-202 | at every moment of staging, script and rollback nothing is lost and the checked space is enough; whenever the container may be running the live files are all old or all from the archive, and without a stop that worked they never change; how it ended is said truly; it goes ahead only if it is wanted, with the space and an intact archive, and then just failures stop it |
| PiRestore.RunOverSsh | cmd/deploy/restore_pi.go:206-238 | with a known exit code the files are where it says; with a lost connection only the script starts the container; a container that was stopped runs on untorn files only |
| PiRestore.StopAndReplace | cmd/deploy/restore_pi.go:176-202 | the stop comes first, and a stop that fails ends it with nothing changed; who starts the container, and over which files, for every way the stop, the script and the start can end |
| PiRestore.Conclude | cmd/deploy/restore_pi.go:188-238 | each exit code has its start: on the new files after 0, on the old ones after a failure, none after 12 |
| PiRestore.StageArchive | cmd/deploy/restore_pi.go:359-381 | while the archive is uploaded live files are untouched and at most the archive is added; it is delivered in full exactly when no command failed |
| PiRestore.CountLive | cmd/deploy/restore_pi.go:310-330 | the loop adds up what will be copied |
| PiRestore.ReachableIsSafe | cmd/deploy/restore_pi.go:335-345 | if the check passed, no state of the script lacks a file's bytes or exceeds the free space |
| PiHint.RunHint | cmd/deploy/restore_pi.go:443-455 | the commands never touch the copies, so they can be repeated after any failure; without one they leave what the copies hold |
| PiHint.HintRecoversIff | cmd/deploy/restore_pi.go:443-455 | from any state of the script the commands bring back every file that existed exactly when each has a whole copy, or none yet and is not a side file |
| PiHint.HintAfterReplacement | cmd/deploy/restore_pi.go:226-228 | after exit code 12 they do; files that did not exist before may remain |
| PiHint.HintOverHalfCopy | cmd/deploy/restore_pi.go:208-220 | a state the copy step may leave in which the commands printed after a lost connection damage the live database |
| PiHint.HintBeforeAnyCopy | cmd/deploy/restore_pi.go:208-220 | a state before any copy in which they remove the only write-ahead log |
| PiHint.HintWithoutCopies | cmd/deploy/restore_pi.go:443-455 | without copies the old files stay exactly when there were no side files |
| Updater.SwapBackendBinary | cmd/backend/backend_update_cli.go:303-328 | at every step a binary that existed is at its name or at `.bak`, nothing untrusted gets a name that is started; one failure alone leaves the old binary in place and nothing that was written behind |
| Updater.RollbackBackendBinary | cmd/backend/backend_update_cli.go:330-353 | success returns the backup to the binary's name and leaves nothing behind; at every step it is at one of the two; one failure alone leaves what was there |
| Updater.SwapAndRollBack | cmd/backend/backend_update_cli.go:303-353 | swap then rollback restores what was there exactly when a binary existed |
| Updater.ChecksumForAsset | cmd/backend/backend_update_cli.go:293-301 | the sum of the first line that names the asset, or no line names it |
| Updater.OnePromise | cmd/backend/backend_update_cli.go:293-301 | checksums.txt promises at most one sum for an asset |
| Updater.Download | cmd/backend/backend_update_cli.go:120-155 | a body comes out exactly when its sum is the one a good checksums.txt promises |
| Updater.Apply | cmd/backend/backend_update_cli.go:157-176 | past the download: a swap or restart that fails is recorded as "err" unless that write fails too, and the request stays |
| Updater.RunBackendUpdateRunner | cmd/backend/backend_update_cli.go:80-176 | at every crash state the request is gone, or "ok" newly recorded, only in a round whose body is vetted and whose restart works, with that body in place; every failure but an unreadable request is recorded as "err" unless that write fails too; without failures a good offer is taken and only what is no good is refused |
| Updater.RunForever | cmd/backend/backend_update_cli.go:80-176 | over any number of failing or killed runs there is always a binary at the name or at `.bak`, both hold only initial or vetted contents, and in every run at every moment the request goes and "ok" is recorded only with an approved body in place; nothing failing, every good offer asked for and not cut off is taken |
| KnownHosts.KnownHostsFile.Rewrite | cmd/deploy/known_hosts_cmd.go:107-188 | the host's lines go, the others stay in order, a line is added, in one step; errors change nothing; without either there is no write |
| KnownHosts.KnownHostsFile.ForgetKnownHost | cmd/deploy/known_hosts_cmd.go:98-100 | exactly the other lines are left, and the count is that of the lines removed |
| KnownHosts.ForgetsOnlyThat | cmd/deploy/known_hosts_cmd.go:107-142 | the host is forgotten, every other host keeps exactly its keys |
| KnownHosts.RotatedKeys | cmd/deploy/ssh.go:597-606 | after a replacement the host has exactly the new key, every other host its own |
| KnownHosts.NicknameIsItsOwnName | cmd/deploy/ssh.go:709-714 | the port added to a nickname for lookup comes off again |
| KnownHosts.HostOfPort | cmd/deploy/known_hosts_cmd.go:18-39 | what follows the last colon is taken off exactly if it is one to five digits |
| KnownHosts.AddressesShareName | cmd/deploy/known_hosts_cmd.go:29-37 | two bare IPv6 addresses that differ in a last group of digits have one name |
| KnownHosts.HostInBrackets | cmd/deploy/known_hosts_cmd.go:23-28 | of an address in brackets, what is in them |
| KnownHosts.FirstName | cmd/deploy/known_hosts_cmd.go:19-22 | of several names, the first |
| KnownHosts.KeyLineReads | cmd/deploy/known_hosts_cmd.go:120-138 | a line written for a host and key is read back as that host and key |
| KnownHosts.KnownHostsFile.CheckOrAppend | cmd/deploy/ssh.go:612-670 | a host on file is accepted only with one of its keys and never changed; the first key of an unknown one is put behind the text unless it is found to be another's, and is read back with all others kept exactly if the text ended its last line; nothing failing, every file that parses gives an answer |
| KnownHosts.AppendReadsBackIff | cmd/deploy/ssh.go:654-663 | an appended key is read back, every other host's kept, exactly if the file is empty, ends in a newline, or its last line is blank |
| KnownHosts.GluedKey | cmd/deploy/ssh.go:654-663 | behind a line that is not ended the new host is lost and the old one has another key |
| KnownHosts.GluedAlice | cmd/deploy/ssh.go:654-663 | so it is for a file ending in alice's line and the first key of bob |
| KnownHosts.KnownHostsFile.Find | cmd/deploy/ssh.go:627-637 | a host is known, and its key the same, exactly when a line says so |
| KnownHosts.KnownHostsFile.AliasForFingerprint | cmd/deploy/ssh.go:678-707 | some host with the key, or none has it if the file could be searched |
| KnownHosts.ListKnownHostAliases | cmd/deploy/known_hosts_cmd.go:56-93 | every named host, each once, in order |
| Text.BeforeIff | cmd/deploy/known_hosts_cmd.go:87-93 | in order means: a beginning comes first, else the smaller character where they differ first |
| KnownHosts.ForgetAll | cmd/deploy/known_hosts_cmd.go:256-267 | forgetting every alias leaves exactly the nameless lines, in order, and stops only at a failure |
| KnownHosts.ConnectAgentSSHManaged | cmd/deploy/actions.go:888-960 | the rotation is a transaction: the file is at every moment the old one or the finished new one, never without a key for the host; every error restores it or reports that it could not; the new key stands only if the router presents it again, its MAC is the pinned one and the other checks pass; the password only goes to a key on file, to the confirmed one, or to the first of an unknown host; nothing failing, the outcome is a function of the keys and answers |
| KnownHosts.Rotate | cmd/deploy/actions.go:909-959 | each way the checks under the new key can end, with the file it leaves and the keys the password went to; nothing failing, the key is rotated exactly if all checks pass and rolled back otherwise |
| KnownHosts.PassesChecks | cmd/deploy/actions.go:924-954 | the checks under the new key, one after the other, pass exactly if the router is reached, hosts no other agent, is confirmed and has the pinned MAC, if one is pinned |
| Pins.LoadOfSave | cmd/deploy/awgm_pins.go:35-77 | what is saved is what is loaded exactly when hosts are lower case, trimmed, without spaces and no comment |
| Pins.FilePinsAreStorable | cmd/deploy/awgm_pins.go:35-56 | whatever the file holds, only such pins are read from it |
| Pins.SavedWithAny | cmd/deploy/awgm_pins.go:35-77 | for any host that is added, storable or not, what is then on file for every host |
| Pins.OthersKeptIff | cmd/deploy/awgm_pins.go:44-71 | a host without newline leaves all others as they were exactly if it has no space, is a comment, or says what is on file already |
| Pins.LosesItsPin | cmd/deploy/awgm_pins.go:44-71 | a host called like another with a space and more behind it takes that one's pin |
| Pins.VictimLosesItsPin | cmd/deploy/awgm_pins.go:44-71 | so it is for `victim x` |
| Pins.AwgmPinStore.Verify | cmd/deploy/awgm_pins.go:81-106 | a pinned host is decided by its pin and nothing is written; after any other is accepted the whole file is known, and for a storable one that is its pin and no other change; only a read or write that fails gives another answer |
| Pins.Connections | cmd/deploy/awgm_pins.go:35-106 | over any sequence of connections with restarts, to hosts without space or newline, pins never change, and all certificates accepted for a host that can be on file are the same; nothing failing, exactly the pinned ones are accepted |
| Pins.UnstorableIsNeverPinned | cmd/deploy/awgm_pins.go:81-100 | a host the file cannot hold is never compared |
| Pins.SameKeyIff | cmd/deploy/awgm_pins.go:81-85 | two hosts share a pin exactly when they agree, but for capitals, without the white space around them |
| Text.TrimSpaceIs | cmd/deploy/awgm_pins.go:82-82 | trimming takes off just the white space around a text |
| Quoting.ShellSingleQuoteRoundTrip | cmd/deploy/actions.go:2651-2653 | the shell reads the quoted text as one word, that text |
| Quoting.ShellQuoteRoundTrip | cmd/deploy/awgm_bootstrap.go:80-85 | the same for the other quoting |
| Quoting.SqlStringRoundTrip | cmd/deploy/actions.go:2604-2606 | SQL reads the literal as the text |
| Quoting.Sqlite3Words | cmd/deploy/actions.go:2513-2516 | the command line is three words, the last of them the SQL text |
| Quoting.UpdateTokenRoundTrip | cmd/deploy/actions.go:2500-2517 | through shell and SQL the update names exactly the given hash and nickname |
| Quoting.UserExistsRoundTrip | cmd/deploy/actions.go:2446-2460 | through shell and SQL the query names exactly the given nickname |
| TokenCommit.Install.TwoPhase | cmd/deploy/actions.go:1076-1319 | the hash changes only in the commit, after the router has the token; the wizard starts the agent only with a token the backend knows; at no moment is the token behind the hash nowhere to be found; the environment is restored unless committed; nothing failing, an agent the backend knows gets its token |
| TokenCommit.Install.Commit | cmd/deploy/actions.go:1105-1124 | hash first, then the token under its own name; whatever fails, the token behind the hash can be found |
| TokenCommit.Install.CommitAndStart | cmd/deploy/actions.go:1307-1319 | the start script runs only after a commit |
| TokenCommit.Install.BootstrapUntilDone | cmd/deploy/actions.go:1159-1304 | however often the operator retries, the hash stays and only the router's configuration changes |
| TokenCommit.Install.OnePhase | cmd/deploy/actions.go:1127-1146 | a first enrolment has its token on disk or shown at every later exit, except when the cache cannot be written; nothing failing, the agent is started with it |
| TokenCommit.Install.Enrol | cmd/deploy/actions.go:1050-1146 | an agent with a name that was deployed, or for which the environment or else the cache has a token, gets one in two phases only; any other in one |
| TokenCommit.Install.Installs | cmd/deploy/actions.go:1046-1319 | over any number of installs in one process or several, up to the first commit that breaks off, the token behind the hash can be found; nothing failing, it is the last one |
| TokenCommit.StagingKeeps | cmd/deploy/secrets.go:134-141 | staging the next token keeps the present one on disk exactly when this process has it under its own name |
| TokenCommit.TokenNamesDiffer | cmd/deploy/actions.go:2294-2296 | two agents keep their tokens under different names |
| TokenCommit.StagedNameIsTaken | cmd/deploy/actions.go:2492-2498 | a staged token's name is another agent's exactly for the nickname with `_staged` |
| Probe.Script.RunOnce | cmd/deploy/external_probe.go:68-106 | one run keeps the state file telling the history, whatever it held at first |
| Probe.RunEveryMinute | cmd/deploy/external_probe.go:68-106 | over any runs and failures, from any state file, what is sent depends on that and the history alone, as a four-line rule says; without a failed write every run that can count writes its state, without a failed message all are delivered |
| Probe.SavedIsRight | cmd/deploy/external_probe.go:92-105 | a state that was written is down for at least two runs or up for at most one, whatever was there before |
| Probe.MessagesAlternate | cmd/deploy/external_probe.go:88-103 | delivered messages strictly alternate, however many fail on the way |
| Probe.AlternateIff | cmd/deploy/external_probe.go:79-103 | they do for every history exactly if the file did not say down for no run |
| Probe.DownAfterTwo | cmd/deploy/external_probe.go:97-103 | DOWN follows two consecutive runs that found the backend not ready; only the first run can take one from the file |
| Probe.OutageIsTold | cmd/deploy/external_probe.go:88-105 | two such runs that get through leave the state down, one that finds it ready leaves it up |
| Probe.StateReadsBack | cmd/deploy/external_probe.go:68-86 | the line one run writes is read back by the next |
| Probe.OtherStateReads | cmd/deploy/external_probe.go:79-86 | any other first word stands for up, any other count for none |
| Probe.OctalCounts | cmd/deploy/external_probe.go:97-97 | a count with a leading zero is octal, or an error |
| Merge.MergeAgents | cmd/deploy/vps_sync.go:248-335 | the loop in place computes the merge that the lemmas below describe |
| Merge.NamesOfMerge | cmd/deploy/vps_sync.go:249-278 | local order is a prefix, then the names only the backend has, which are those reported as added |
| Merge.UnionOfNames | cmd/deploy/vps_sync.go:248-278 | the names are those of both sides |
| Merge.NamesOnce | cmd/deploy/vps_sync.go:248-278 | unique names stay unique |
| Merge.LocalEntry | cmd/deploy/vps_sync.go:279-333 | a local-only entry is unchanged, another one is reconciled with the backend's entry of its name only |
| Merge.AddedEntry | cmd/deploy/vps_sync.go:256-277 | every added entry is the backend's of that name |
| Merge.FieldsOfMerge | cmd/deploy/vps_sync.go:280-331 | field by field: the backend's replaces the wizard's unless it is empty; the pending version is always the backend's, the cached interface the wizard's |
| Merge.DivergentNames | cmd/deploy/vps_sync.go:316-323 | exactly the names whose hosts are known on both sides and differ |
| Merge.ConflictNames | cmd/deploy/vps_sync.go:306-315 | exactly the names pinned on both sides to different routers |
| Merge.PinsSurvive | cmd/deploy/vps_sync.go:306-315 | a pinned router is never replaced by another |
| Merge.ReconciledTwice | cmd/deploy/vps_sync.go:279-333 | reconciling with the same entry again changes nothing exactly for a stable pair of pins |
| Merge.PinMovesTwice | cmd/deploy/vps_sync.go:306-315 | the pin `: a` is one that moves |
| Merge.MergeAgain | cmd/deploy/vps_sync.go:248-335 | merging the same answer again adds nothing and reports no divergence; it changes nothing exactly if all pins are stable |
| Merge.PullUndoesPush | cmd/deploy/vps_sync.go:720-739 | pulling what was pushed gives the agent back exactly when URL and pin survive their normalising |
| Merge.PullAfterLoss | cmd/deploy/vps_sync.go:256-277 | merging what was pushed into the empty list gives the fleet without cached interfaces exactly if URLs and pins survive normalising twice |
| Merge.FleetRoundTrip | cmd/deploy/vps_sync.go:248-335 | the same for a whole fleet, with nothing reported |
| Merge.PinIsStable | cmd/deploy/vps_sync.go:337-342 | normalising a pin is idempotent exactly when no white space is left at an end |
| Merge.URLIsStable | cmd/deploy/awgm_client.go:89-98 | the URLs that normalising leaves alone |
| Merge.URLOfHost | cmd/deploy/awgm_client.go:89-98 | a bare host gets the https scheme, a slash at the end makes no difference |
| Extract.ExtractEncryptedArchive | cmd/backend/backup_archive.go:399-463 | on every exit the names returned are distinct, plain, a beginning of the members and exactly the files created; there is no error exactly if the archive is good, fits the limit and no command failed, and then it is all there; each refusal is true of the member that comes next |
| Extract.RunBackupExtract | cmd/backend/backup_verify.go:504-525 | the target holds the whole archive exactly if it was empty, the archive is good and nothing failed; else it is as it was when the removals work |
| Extract.SuspectNames | cmd/backend/backup_archive.go:429-432 | the name check refuses exactly what is not one plain, unhidden component |
| Extract.LimitHoldsIff | cmd/backend/backup_archive.go:437-440 | the sizes of what passed the check are within the limit exactly when no member took the sum beyond int64 |
| Extract.LimitCanBePassed | cmd/backend/backup_archive.go:437-440 | sizes that pass a limit they exceed |
| Extract.SmallSizesKeepLimit | cmd/backend/backup_archive.go:437-440 | declared sizes below the gap to 2^63 never do |
| BackupStatus.StatusFile.RunOne | cmd/backend/backup_cli.go:233-260 | a killed run leaves "not finished" with the earlier success once the mark is written, and nothing before; any other records its result, deliveries included, or what went wrong in the preparation |
| BackupStatus.StatusFile.RunBackup | cmd/backend/backup_cli.go:167-263 | each section is as before, failed with its last success kept, or done; kinds not asked for never change; each kind asked for is recorded whatever became of the other; a failure is reported exactly if there was one, unless a write failed too; a run that cannot begin says so for every kind asked for |
| BackupStatus.StatusFile.Runs | cmd/backend/backup_cli.go:167-263 | over any runs killed anywhere the record of the last success does not go back, and OK means it is the last run |
| BackupStatus.StatusFile.WriteEarlyFailure | cmd/backend/backup_cli.go:298-320 | every kind asked for is marked failed, its last success kept, its deliveries as not done |
| BackupStatus.StatusFile.WriteKindStatus | cmd/backend/backup_cli.go:360-386 | the section is the result: file, size and deliveries; success sets the success time to the run's, failure keeps the earlier one |
| BackupStatus.KindsAreAsked | cmd/backend/backup_cli.go:267-277 | one named kind is asked for alone, anything else asks for both |
| BackupStatus.SuccessStays | cmd/backend/backup_cli.go:360-386 | a section's success time changes only on success and never decreases |
| Release.TagRoundTrip | cmd/deploy/github.go:265-303 | a version's tag is parsed back to the version exactly if its numbers fit an int64, and is none otherwise |
| Release.VIsOptional | cmd/deploy/github.go:267-267 | the `v` may be left out |
| Release.MissingMinor | cmd/deploy/github.go:269-278 | an empty number makes no version |
| Release.CompareReleaseTags | cmd/deploy/github.go:248-263 | the loop computes the order of the first number that differs |
| Release.TagOrder | cmd/deploy/github.go:248-263 | on parsable tags a total, transitive order of their ranks |
| Release.FinalAboveCandidate | cmd/deploy/github.go:280-289 | a final release is above a candidate of its version exactly when that one's number is below 2^30 |
| Release.ShouldPreferRunningRelease | cmd/deploy/github.go:226-246 | preferred exactly when newer, but not a final release over a candidate of its version |
| Release.NewestReleaseByTag | cmd/deploy/github.go:159-167 | the running best of the list |
| RunningBest.OrderIrrelevantIff | cmd/deploy/github.go:159-167 | under any relation the order of the list is irrelevant exactly when one element is newer than every other and none newer than it |
| RunningBest.NothingIsNewer | cmd/deploy/github.go:159-167 | under a weak order nothing in the list is newer than what is taken |
| Release.NewestOfAnyOrderIff | cmd/deploy/github.go:159-196 | the list in any order gives the same release exactly when some release in it is newer than every other |
| Release.NewestIsLatest | cmd/deploy/github.go:159-196 | of a well dated list the release published last |
| Release.NewestOfAnyOrder | cmd/deploy/github.go:159-196 | for a well dated list in any order the same |
| Release.HigherTagAtEqualTimes | cmd/deploy/github.go:169-182 | published at the same or at unknown times, the higher tag is newer |
| Release.HighestTag | cmd/deploy/github.go:159-182 | of a list all published at one time the highest tag is taken |
| Release.RepublishedCandidate | cmd/deploy/github.go:169-182 | a list whose newest release depends on its order |

## Left out

- Network, SSH, HTTP, Telegram, prompts, terminals: success or failure is a free choice. Hashes, ciphers,
  signatures, tar, gzip, SQLite, JSON, YAML: abstract or a list of members.
- Durability: a finished command is taken to be on disk. The restore script and the updater never sync, so a
  power loss that undoes finished commands, or reorders them, is not covered.
- Raspberry Pi restore: of file modes and owners only that they were set; directories, sizes that change
  between the space check and the stop of the container, block rounding of `df`, the int64 sum of sizes.
- The VPS restore (`cmd/deploy/restore_backup.go:943-989`): its rollback is armed before its copies are
  complete, so what is proved for the Pi is not claimed for it.
- The wizard's process lock (`cmd/deploy/lock.go:56-60`) and the legacy SSH token repair
  (`cmd/deploy/actions.go:2139-2215`), which does not follow the two-phase order.
- A router that reboots between the change of its configuration and the commit starts its agent with a token the
  backend does not know yet; only starts issued by the wizard are modelled.
- Deferred deployments: the outcome `Deferred` ends the model; the runner on the VPS is not part of it.
- Routing probes (`cmd/deploy/routing.go`): a loop with cleanup and a stable sort, which would add easy members.
- TokenCommit.Install.BootstrapUntilDone: the number of retries is any finite number chosen in advance.
- TokenCommit.Install.Installs: stops at the first commit that breaks off; `StagingKeeps` says what happens next.
- KnownHosts.KnownHostsFile.CheckOrAppend: hashed entries, patterns, markers, several hosts on one line and ports
  of their own are not modelled; a host is the first name of the line without its port.
- Pins.Connections: hosts with a space or a newline are excluded, because they change other hosts' pins
  (`OthersKeptIff`); `SavedWithAny` says what they do.
- Probe.RunEveryMinute: the counter does not overflow.
- Merge.MergeAgain: names are unique on each side, as the backend and the wizard keep them.
- Extract.RunBackupExtract: a run killed outright leaves what it had unpacked; a signal it handles is an error.
- BackupStatus.StatusFile.RunOne: if the mark cannot be written, a killed run leaves the earlier section. The
  shaping of error texts and concurrent writers of the file.
- Upper and lower case are those of ASCII letters.
