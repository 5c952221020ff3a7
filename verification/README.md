# Backr: a verified model

Backr is a backup tool: a daemon on the laptop copies project folders over ssh into
timestamped snapshot folders of a host, a desktop client talks to the daemon over a Unix
socket, and laptops and hosts are paired on the local network. This project models the parts
of it in which state, concurrency or text formats make mistakes easy, and proves what they
are for:

- **Self-update** (`Swap`, `Update`, `Release`): replacing three installed binaries with
  backups, restart, health check and rollback, where every file operation may fail; the
  pipeline that lets only verified releases get that far; versions, checksums and assets.
- **The daemon as step systems** (`Jobs`, `Connection`, `PairingWindow`, `Schedule`): backup
  jobs and the single retry slot; the dispatcher, forwarder and writer of a connection;
  pairing windows with their stoppers, timers and serve threads; the tick loop and its
  restarts. Each is a transition function `Next` over events, one event per atomic operation,
  lock section or await, and the theorems hold of every state that some sequence of events
  reaches, among them that nobody is ever stuck and that time can always pass. `Client` is
  the other end of a connection.
- **Snapshots** (`Calendar`, `Snapshots`, `FindRecords`, `BackupCycle`, `Restore`): names and
  their order, remote listings, backup runs and the cache of their results, restore folders.
- **Codecs and rules on text** (`Text`, `Shell`, `Paths`, `AuthorizedKeys`, `Pairing`): shell
  quoting against a shell tokenizer (sections 2.2.1, 2.2.2 and 2.3 of the POSIX.1-2017 Shell
  Command Language), path joining against lexical resolution, editing of `authorized_keys`,
  the pairing code and the requests that carry it.

`Sequences` and `Wrappers` hold what several of them share.

Code that updates state in place is a class whose methods are proved against specification
functions (`Swap.Host`, `Update.Updater`, `BackupCycle.Daemon`, `Restore.Home`,
`AuthorizedKeys.TrustStore`, `Pairing.PairingSession`, `Pairing.Window`). What the programs
cannot decide (whether a rename fails, what a server answers, who runs next) is chosen
arbitrarily, so the proofs cover every choice; failures are counted in ghost fields, so that
contracts can say that a method gives up only for a reason.

Where the code and its documentation or its intent part ways, the model follows the code, and
a lemma says exactly when the promise is kept, or shows a run that breaks it:

- a rolled-back update restores every target exactly if nothing was newly installed by it and
  no stale `.bak` stood in for a missing binary, hence always exactly if every binary was
  installed (`Swap.RestoredIff`, `Swap.AlwaysRestoredIff`, `Swap.FreshInstallSurvivesRollback`);
- `parse_version` accepts cores with more than three parts (`Release.CoreIsXYZIff`,
  `Release.FourPartsAreAccepted`), and a pre-release compares equal to its release;
- a stale retry sleeper may fire the retry of a later claim early, exactly if the sleeper of an
  earlier claim is still asleep (`Jobs.FiresEarlyIff`, `Jobs.StaleSleeperFiresEarly`), and the
  clearing of another, scheduled job may take the project of a running one,
  exactly if such a job has given back the flag and not cleared yet (`Jobs.MayLoseProjectIff`,
  `Jobs.RunningLosesProjectIff`, `Jobs.RunningProjectIsCleared`);
- a response may overtake events broadcast before it
  (`Connection.EventsPrecedeAnswerIff`, `Connection.AnswerOvertakesEvent`);
- the timer of an earlier pairing window may close the open one early
  (`PairingWindow.ClosesEarlyIff`, `OldTimerClosesNewWindow`), a late stopper may discard the
  session of a newer window (`ClearDiscardsOtherIff`, `LateStopperClearsNewSession`), a thread
  that has paired may take a newer window's runtime, whose own thread is then never unblocked
  (`ThreadTakesOtherIff`, `PairedThreadTakesNewRuntime`, `NeverUnblocked`), and one serve loop may hand a key over twice, to different
  sessions (`Pairing.AtMostOncePerSession`, `Pairing.TwiceWithAnotherSession`);
- overlapping restarts of the scheduler may leave two live loops, a loop outside the slots
  staying live exactly if its token and its handle were stored over
  (`Schedule.LiveIffStoredOver`, `Schedule.OverlappingRestartsLeaveTwoLoops`), and the first
  delay lies in [0, interval] for intervals of a minute or more only (`Schedule.DelayInRangeIff`);
- listings lose white space at the end of names (`FindRecords.ListingIsExactIff`), a failed
  listing is recorded as an empty one (`BackupCycle.RecordedCountIff`), a new snapshot sorts
  last exactly if its name was not used in the same second and its year has four digits
  (`BackupCycle.RunIsChronological`), and two remotes share a cache key exactly where a host or
  user name contains the separator (`BackupCycle.KeyInjective`, `NonPlainKeysCollide`,
  `KeysCanCollide`);
- reading refuses paths that listing accepts, and may look in another place
  (`Paths.ReadRefusesIff`, `Paths.SamePlaceIff`), and keys with tabs are counted but not listed
  (`AuthorizedKeys.TabSeparatedKeyIsNotListed`).

Verify everything with `dafny verify dfyconfig.toml` (Dafny 4.11).

## Model

| member | source | states |
|---|---|---|
| Swap.Host.ApplySwap | crates/backr-core/src/update/swap.rs:78-138 | For any swaps whose paths do not collide and any pattern of failures: nothing changes if pre-flight or stop fails; success means every target holds its staged bytes, executable, without temporaries or (if clean-up worked) backups, and the service was stopped, started, checked; failure means each swap was undone and a start of the service was attempted, and is always due to a file operation or service call that failed; in every state on the way each target is absent, old or new in full, and until the health check succeeded the old bytes are at the target or its `.bak` |
| Swap.Host.SwapOne | crates/backr-core/src/update/swap.rs:141-157 | Success leaves the new binary at the target and the old one as its backup; failure comes from a failed file operation and, unless an undo failed too, leaves target and backup as they were, or recovered; every state in between keeps the old binary recoverable |
| Swap.Host.RollbackOne | crates/backr-core/src/update/swap.rs:160-169 | The backup, if there is one, is back at the target, and no state in between loses it |
| Swap.Host.InstallExecutable | crates/backr-core/src/update/swap.rs:175-190 | The target changes in one rename, to the staged bytes with mode 755; until then only the temporary file does |
| Swap.Host.Rollback | crates/backr-core/src/update/swap.rs:129-134 | Undoes exactly the completed swaps, whatever state is reached keeping all old binaries recoverable |
| Swap.Host.CleanUp | crates/backr-core/src/update/swap.rs:118-124 | Discarding backups never touches a target |
| Swap.RollbackLeavesOnlyTemporaries | crates/backr-core/src/update/swap.rs:78-138 | All or nothing: if every target existed and no `.bak` was left over, a rolled-back update differs from the state before it in `.new` files at most |
| Swap.RestoredIff | crates/backr-core/src/update/swap.rs:160-169 | Rolling back restores all targets exactly if each completed swap replaced an existing binary and the failed one found no stale backup in place of a missing binary |
| Swap.AlwaysRestoredIff | crates/backr-core/src/update/swap.rs:78-138 | Rolling back restores all targets, however far the update got, exactly if every binary was installed before |
| Swap.FreshInstallSurvivesRollback | crates/backr-core/src/update/swap.rs:160-169 | A binary that was not installed before stays after a rollback |
| Swap.SwapStep | crates/backr-core/src/update/swap.rs:105-113 | One swap keeps all others safe and as they were |
| Update.Updater.ApplyUpdate | crates/backr-core/src/update/mod.rs:82-114 | `UpToDate` means that a release was looked up and its version does not come after the current one; a newer release, two idle answers and no fault lead to the swap, or to a release found unfit by the files staged of it; the swap is entered with the three release binaries in order, verified and downloaded from that release's addresses, or nothing outside the staging directory changes; `Updated` names that release and means that every program of it is where its users look for it, executable, with a digest listed in the manifest, and the daemon healthy; an error has a cause, and after clean undo steps leaves a full installation as it was |
| Update.Updater.StageAndApply | crates/backr-core/src/update/mod.rs:118-161 | The swap is entered only after the second busy check and only with files that hash to their entries in the downloaded manifest |
| Update.Updater.StageAll | crates/backr-core/src/update/mod.rs:126-152 | Yields exactly the three release swaps in order, all still verified by the downloaded manifest when it ends and fetched from the addresses of the release's assets; refuses only for a failed download, a missing home directory, or a release that lacks a file or a matching hash |
| Update.Updater.SucceededRuns | crates/backr-core/src/update/swap.rs:47-65 | After a successful swap each of the three programs is executable at its fixed place below the home directory and hashes to the manifest entry of its own asset |
| Update.ReleaseSwapsDisjoint | crates/backr-core/src/update/swap.rs:47-65 | The installed paths of the three binaries, their backups, temporaries and staged files never coincide |
| Update.OutsideStaging | crates/backr-core/src/update/mod.rs:205-215 | Removing the staging directory cannot remove an installed file |
| Release.ParsesIff | crates/backr-core/src/update/release.rs:91-100 | A tag parses to a version exactly if, trimmed, it is an optional "v", three 64-bit numerals with dots, and nothing or a tail starting with "-", "+" or "." |
| Release.VersionRoundTrip | crates/backr-core/src/update/release.rs:91-100 | Parsing inverts printing for all u64 triples, with or without "v", with any suffix and white space around |
| Release.CoreIsXYZIff | crates/backr-core/src/update/release.rs:87-100 | A parsed core is X.Y.Z, as documented, exactly if it has three parts |
| Release.FourPartsAreAccepted | crates/backr-core/src/update/release.rs:87-100 | "1.2.3.4" parses, against the documentation |
| Release.NewerIsStrictOrder | crates/backr-core/src/update/release.rs:106-111 | "Newer" is irreflexive, transitive, asymmetric and total on different versions; unparseable tags are never newer |
| Release.NewerIsPrecedence | crates/backr-core/src/update/release.rs:106-111 | On printed versions it is precedence by major, minor, patch (section 11 of SemVer 2.0.0), suffixes being ignored |
| Release.ParseSha256Sums | crates/backr-core/src/update/release.rs:141-157 | The loop computes the map that `LastLineWins` and `ManifestRoundTrip` are about |
| Release.LastLineWins | crates/backr-core/src/update/release.rs:141-157 | A name is in the map exactly if some line names it, with the hash of the last such line |
| Release.ParseLineIff | crates/backr-core/src/update/release.rs:141-157 | A line is an entry exactly if it begins with 64 bytes that are not white space, followed by white space and a name |
| Release.ManifestRoundTrip | crates/backr-core/src/update/release.rs:141-157 | Parsing what `sha256sum` prints, in text or binary mode, gives every name its last hash in lower case |
| Release.Sha256Hex | crates/backr-core/src/update/release.rs:160-167 | The loop prints the digest as `HexOf`, which `HexInjective` shows to lose nothing |
| Release.HexInjective | crates/backr-core/src/update/release.rs:160-167 | Different digests print differently |
| Release.VerifiesIff | crates/backr-core/src/update/release.rs:172-185 | Verification succeeds exactly if the expected text, trimmed and in lower case, is the hash |
| Release.EqIgnoreAsciiCaseIff | crates/backr-core/src/update/release.rs:172-185 | Hashes that differ in the case of ASCII letters only, and no others, are taken for equal |
| Release.ListedHashVerifies | crates/backr-core/src/update/release.rs:172-185 | Contents verify against a printed hash exactly if their digests are equal |
| Release.VerifiedContentsShareDigest | crates/backr-core/src/update/release.rs:172-185 | Two contents that verify against the same entry have the same digest |
| Release.AssetNamesDiffer | crates/backr-core/src/update/release.rs:50-85 | Downloads of one release collide neither with each other nor with the manifest |
| Jobs.MutualExclusion | crates/backrd/src/scheduler.rs:72-126 | In every reachable state `in_progress` is up exactly if a job holds it, and no two jobs are inside the backup cycle |
| Jobs.AcquireIff | crates/backrd/src/ipc/handlers.rs:250-278 | A job gets in exactly if no job holds the flag, whatever paths earlier jobs took out, panics included |
| Jobs.RetryConservation | crates/backrd/src/scheduler.rs:97-172 | Claims = fires + cancellations + the pending one; while one is pending its claimer sleeps and is within the retry interval |
| Jobs.EveryRetryIsAJob | crates/backrd/src/scheduler.rs:151-172 | Over every run, scheduled jobs = ticks + retries fired, and requested jobs = requests |
| Jobs.RetryBacksUp | crates/backrd/src/scheduler.rs:163-171 | A sleeper that wakes to a pending retry adds one waiting job, which from an idle daemon gets in and runs to the end of its backup |
| Jobs.WakesOnce | crates/backrd/src/scheduler.rs:163-171 | A sleeper that has woken wakes in no continuation again |
| Jobs.TimeCanPass | crates/backrd/src/scheduler.rs:163-171 | In every reachable state any time can pass, sleepers waking meanwhile |
| Jobs.EveryJobCanFinish | crates/backrd/src/scheduler.rs:72-126 | No job is ever stuck: at most five steps of its own end it, whatever its backup comes to, and give back the flag if it held it |
| Jobs.PendingIsSettled | crates/backrd/src/scheduler.rs:151-172 | One retry interval after its claim a retry has fired or been cancelled, in every continuation |
| Jobs.RetryIsNeverLate | crates/backrd/src/scheduler.rs:151-172 | A retry fires at the end of its sleeper's interval, never later than the latest claim asks for |
| Jobs.FiresEarlyIff | crates/backrd/src/scheduler.rs:151-172 | A pending retry can fire early in some continuation exactly if the sleeper of an earlier claim is still asleep |
| Jobs.StaleSleeperFiresEarly | crates/backrd/src/scheduler.rs:163-171 | A run in which a cancelled claim's sleeper fires a retry ten seconds after the failure |
| Jobs.ShownProjectHasOwner | crates/backrd/src/scheduler.rs:120-126 | A project is shown only while the job that set it runs, has given back the flag but not cleared yet, or has panicked |
| Jobs.RunningLosesProjectIff | crates/backrd/src/scheduler.rs:120-126 | Of all steps of others, exactly a clearing takes away the project of a running job; the clearing job is a scheduled one, and the running job still holds the flag |
| Jobs.MayLoseProjectIff | crates/backrd/src/scheduler.rs:120-126 | In some continuation a running job loses its project to another one, while it still holds the flag, exactly if some other, scheduled job has given back the flag and not cleared yet |
| Jobs.RunningProjectIsCleared | crates/backrd/src/scheduler.rs:120-126 | A run in which job 0, which has given back the flag, clears the project that job 1 has set and is backing up |
| Connection.AllAnsweredInOrder | crates/backrd/src/ipc/mod.rs:58-170 | For every interleaving that closes without a write error: one response per non-blank line read, in order, under its id or "null", everything queued having been written |
| Connection.AnswersArePrefix | crates/backrd/src/ipc/mod.rs:109-206 | At any time, write error or not, the responses on the socket are the first of those made, which are the first of those due |
| Connection.EventsInOrder | crates/backrd/src/ipc/mod.rs:184-206 | Events queued are broadcast ones in order, none twice; sent = forwarded + skipped by lag + unread + in hand + dropped after a write error |
| Connection.WriterDrains | crates/backrd/src/ipc/mod.rs:109-206 | Once the dispatcher has ended, a living writer can always write everything queued, and the event in the forwarder's hands, and end |
| Connection.EverythingCanBeAnswered | crates/backrd/src/ipc/mod.rs:58-170 | From every state without an error a run can be completed in which all input is answered in order and written |
| Connection.EveryInputHasItsAnswers | crates/backrd/src/ipc/mod.rs:58-170 | For every input there is a run that closes without an error, all of it answered |
| Connection.ReadErrorStillDrains | crates/backrd/src/ipc/mod.rs:58-170 | After a read error all responses made until then can still be written |
| Connection.WriteErrorEndsAll | crates/backrd/src/ipc/mod.rs:109-206 | After a write error dispatcher and forwarder can stop as well |
| Connection.NothingAfterError | crates/backrd/src/ipc/mod.rs:109-206 | After a write error nothing is queued or written in any continuation |
| Connection.SkipsOnlyBehind | crates/backrd/src/ipc/mod.rs:184-206 | Events are skipped only if more than 256 were unread at some time, and then the newest 256 are kept |
| Connection.RingOf256 | crates/backrd/src/ipc/mod.rs:184-206 | The forwarder reads on if at most 256 events are unread, and skips if there are more |
| Connection.EventsPrecedeAnswerIff | crates/backrd/src/ipc/mod.rs:109-206 | When a response is queued, all events sent so far precede it exactly if the forwarder has caught up and none was skipped (the comment at src-tauri/src/ipc_client.rs:218 says they always do) |
| Connection.AnswerOvertakesEvent | crates/backrd/src/ipc/mod.rs:109-206 | A run in which an event sent during a request arrives after its response |
| Client.SendInner | src-tauri/src/ipc_client.rs:230-283 | The loop stops at the first line that is not an event, another id or unknown, returns its verdict, and has emitted the progress before it |
| Client.ClientGetsItsAnswer | src-tauri/src/ipc_client.rs:185-283 | End to end: as soon as an answer is on the socket, whatever becomes of the connection, the client returns the reply to its own request, having re-emitted only progress broadcast and written before it, in order, unless one of its reads elapses first |
| Client.AnsweredUnlessElapsed | src-tauri/src/ipc_client.rs:217-241 | If one of the client's reads elapses, it returns that reply exactly if the line with the answer was read before, and the time-out otherwise |
| Client.ClosedMeansAnswered | src-tauri/src/ipc_client.rs:185-283 | A connection that closes without error has written the client's answer |
| PairingWindow.RuntimesConserved | crates/backrd/src/ipc/handlers.rs:1394-1449 | Runtimes created = the one being opened + the one in the slot + taken by serve + taken by stop |
| PairingWindow.EveryRuntimeIsAccountedFor | crates/backrd/src/ipc/handlers.rs:1394-1449 | No runtime is overwritten, and each is taken out of the slot for teardown at most once |
| PairingWindow.WindowsExpire | crates/backrd/src/ipc/handlers.rs:1433-1439 | A stored runtime leaves the slot within 180 seconds |
| PairingWindow.SessionsExpire | crates/backrd/src/ipc/handlers.rs:1433-1449 | A session is there only while the newest window is in the slot, at most 180 seconds after it was stored, before its runtime is stored, or until somebody who has emptied the slot clears it |
| PairingWindow.NoWindowNoSession | crates/backrd/src/ipc/handlers.rs:1567-1574 | Once nobody is opening or closing a window and none is in the slot, there is no session |
| PairingWindow.TimeCanPass | crates/backrd/src/ipc/handlers.rs:1433-1439 | In every reachable state any time can pass, timers closing windows meanwhile |
| PairingWindow.StartCanReturn | crates/backrd/src/ipc/handlers.rs:1394-1449 | A start call can always return, whatever else is going on, with or without having opened its window |
| PairingWindow.CloserCanFinish | crates/backrd/src/ipc/handlers.rs:1567-1574 | A stop request, or a timer that is running, can always finish, and leaves no session unless it is a timer that found no window |
| PairingWindow.OnlyPairingEndsServing | crates/backr-core/src/pairing/listener.rs:195-216 | Over every run, a thread that has left its loop has answered a successful pair or was unblocked, and it tears down after pairing only |
| PairingWindow.ClosesEarlyIff | crates/backrd/src/ipc/handlers.rs:1433-1439 | Some timer can close the open window before its 180 seconds are over exactly if the timer of a window stored earlier has not run yet |
| PairingWindow.ClearDiscardsOtherIff | crates/backrd/src/ipc/handlers.rs:1567-1574 | A stopper discards the session of a window it did not close exactly if there is a session and its own window is not the newest |
| PairingWindow.ThreadTakesOtherIff | crates/backr-core/src/pairing/listener.rs:203-216 | A paired thread takes another window's runtime exactly if one is in the slot and its own is not |
| PairingWindow.JoinedThreadCanFinish | crates/backr-core/src/pairing/mod.rs:37-44 | A thread that a stopper joins can always finish by steps of its own and of the session lock's holder |
| PairingWindow.OldTimerClosesNewWindow | crates/backrd/src/ipc/handlers.rs:1433-1439 | A run in which the timer of a stopped window takes the next one, 80 seconds after that was stored |
| PairingWindow.LateStopperClearsNewSession | crates/backrd/src/ipc/handlers.rs:1567-1574 | A run in which a stopper that closed window 0 discards the session of the open window 1 |
| PairingWindow.PairedThreadTakesNewRuntime | crates/backr-core/src/pairing/listener.rs:203-216 | A run in which a paired thread takes the next window's runtime while that window's thread serves on and was not unblocked |
| PairingWindow.NeverUnblocked | crates/backr-core/src/pairing/listener.rs:203-216 | In every continuation a window whose runtime a serve thread has taken without its being unblocked stays so, and its own thread cannot leave its loop but by pairing |
| Pairing.ConstantTimeEq | crates/backr-core/src/pairing/code.rs:84-93 | The XOR/OR fold accepts exactly equal byte strings |
| Pairing.PairingSession.Validate | crates/backr-core/src/pairing/code.rs:63-79 | Every answer is the closed form over all codes tried before |
| Pairing.AcceptedIff | crates/backr-core/src/pairing/code.rs:63-79 | A session is used up exactly if some code tried was right with fewer than five wrong ones before it |
| Pairing.ValidAtMostOnce | crates/backr-core/src/pairing/code.rs:63-79 | After the accepted code a session only ever answers that it was used |
| Pairing.LockedForGood | crates/backr-core/src/pairing/code.rs:63-79 | After five wrong codes without a right one a session only ever answers that it is locked |
| Pairing.Window.ProcessPair | crates/backr-core/src/pairing/listener.rs:103-121 | A bad key leaves the session as it was; a failed append uses it up and has a cause; the key is in the file after success |
| Pairing.Window.Serve | crates/backr-core/src/pairing/listener.rs:195-217 | While sessions come and go and other loops answer requests too: every request of this loop is answered in order until the first success, every status is the closed form over all codes its session has seen, the lines handed to append are those of the accepted requests, one per session at most, and without a success the file is unchanged; the session left in the slot goes only after a pair |
| Pairing.AtMostOncePerSession | crates/backr-core/src/pairing/listener.rs:103-121 | Of all requests that meet the same session, in whichever loops, at most one gets as far as append |
| Pairing.TwiceWithAnotherSession | crates/backr-core/src/pairing/listener.rs:195-265 | Two requests of one loop, the first and the second it gets, may both get there, with different sessions, after a failed append |
| Pairing.PairLineIsUsable | crates/backr-core/src/pairing/listener.rs:112-114 | What is handed to append is a valid key line in normal form |
| Pairing.PaddedKeyIsUsable | crates/backr-core/src/host_trust.rs:52-59 | A valid key gets through, whatever white space is around it |
| Schedule.OneLiveLoop | crates/backr-core/src/scheduler.rs:138-214 | After restarts that did not overlap, exactly the loop in the slots is live and no other can tick |
| Schedule.LiveIffConfigured | crates/backr-core/src/scheduler.rs:138-214 | A restart leaves a live loop exactly if given a configuration, and it runs under that one |
| Schedule.TicksOnSchedule | crates/backr-core/src/scheduler.rs:162-214 | At every time, for every series of restarts, a live loop ticks exactly every interval_hours hours (every minute for 0, every 2^64 - 1 seconds where hours exceed 64 bits of seconds), the first time as `FirstTickBounds` says, and a minute after its start without a backup |
| Schedule.TimeCanPass | crates/backr-core/src/scheduler.rs:180-214 | In every state any time can pass, live loops ticking meanwhile |
| Schedule.RestartCanReturn | crates/backr-core/src/scheduler.rs:134-214 | A restart can always return by at most five steps of its own, and without a configuration starts no loop |
| Schedule.NeverTicksAgain | crates/backr-core/src/scheduler.rs:134-214 | A loop that has seen its cancellation, or was aborted, ticks in no continuation again |
| Schedule.FirstTickBounds | crates/backr-core/src/scheduler.rs:89-122 | The first tick comes at once if a backup is overdue, else when the interval has passed since the last one or the settle time of a minute is over, a second late at most; after a full interval if the last one lies in the future |
| Schedule.DelayInRangeIff | crates/backr-core/src/scheduler.rs:66-122 | The delay is within the interval exactly if the interval is a minute or more, or the settle time is not used |
| Schedule.ZeroIffOverdue | crates/backr-core/src/scheduler.rs:66-122 | With the clamp, the delay is zero exactly if overdue and a minute or more otherwise |
| Schedule.LiveIffStoredOver | crates/backr-core/src/scheduler.rs:138-214 | However restarts overlap, a loop is live after them exactly if neither its token nor its handle was taken; outside the slots, exactly if both were stored over |
| Schedule.OverlappingRestartsLeaveTwoLoops | crates/backr-core/src/scheduler.rs:138-214 | A run in which two overlapping restarts leave two live loops |
| Calendar.CalendarOrder | crates/backr-core/src/project_snapshot_cache.rs:78-82 | The order of civil dates is the order of their instants, leap years included |
| Calendar.InstantOfCivil | crates/backr-core/src/project_snapshot_cache.rs:78-82 | Dates and instants correspond one to one |
| Calendar.DaysOfYears | crates/backr-core/src/project_snapshot_cache.rs:78-82 | The calendar is the Gregorian one: the days before a year in closed form |
| Calendar.DaysOfMonths | crates/backr-core/src/project_snapshot_cache.rs:78-82 | And the days before each of its months |
| Snapshots.NameIsValidIff | crates/backr-core/src/backup/ssh.rs:45-56 | A produced name is accepted exactly up to the year 9999 |
| Snapshots.NameOrder | crates/backrd/src/ipc/handlers.rs:350-356 | Names of instants compare as strings exactly as the instants compare |
| Snapshots.NameRoundTrip | crates/backr-core/src/project_snapshot_cache.rs:78-82 | The name of an instant parses back to that instant |
| Snapshots.ParsedNameRoundTrip | crates/backr-core/src/project_snapshot_cache.rs:78-82 | Conversely, whatever name parses, but not to a leap second, is the name of the instant it parses to |
| Snapshots.LeapSecondIsRead | crates/backr-core/src/project_snapshot_cache.rs:78-82 | A name with second 60 is read as the leap second after the 59th |
| Snapshots.NewestFirst | crates/backr-core/src/backup/ssh.rs:286-294 | In a listing, what comes earlier is chronologically later |
| Snapshots.ListingOfOutput | crates/backr-core/src/backup/ssh.rs:261-295 | The listing of the command's output is the valid trimmed names in descending order |
| Snapshots.ListingIsExact | crates/backr-core/src/backup/ssh.rs:261-295 | On trimmed names it lists exactly the valid directories, each once |
| Snapshots.ListingIsUnique | crates/backr-core/src/backup/ssh.rs:286-294 | There is exactly one listing of the directories, whatever order the host reports them in |
| FindRecords.ListChildren | crates/backr-core/src/backup/ssh.rs:341-384 | The loop computes the parse that `ListingRoundTrip` is about |
| FindRecords.ListingRoundTrip | crates/backr-core/src/backup/ssh.rs:312-384 | Parsing the printed records gives back every entry in order, names without trailing white space, even if they contain US |
| FindRecords.ListingIsExactIff | crates/backr-core/src/backup/ssh.rs:341-384 | The listing is exact exactly if no name is empty, "." or ".." or ends in white space |
| BackupCycle.KeyInjective | crates/backr-core/src/project_snapshot_cache.rs:34-39 | Remotes whose host and user have no "\|" have different keys |
| BackupCycle.NonPlainKeysCollide | crates/backr-core/src/project_snapshot_cache.rs:34-39 | Every remote whose host or user contains a "\|" shares its key with another one |
| BackupCycle.KeysCanCollide | crates/backr-core/src/project_snapshot_cache.rs:34-39 | Two remotes that share a key |
| BackupCycle.Daemon.TransferSnapshot | crates/backrd/src/ipc/handlers.rs:345-375 | A transfer links to the newest valid snapshot of a successful listing, and to none exactly if there is none or listing failed |
| BackupCycle.Daemon.ExecuteBackupCycle | crates/backrd/src/ipc/handlers.rs:292-437 | A run that succeeds has uploaded one new snapshot for every project folder in order, or for the one asked for, and nothing else, each named after an instant of the run and linked to the newest snapshot found there, the cache showing them beside the rows it had; only then the time of the last backup advances; the saved configuration is the one read at the start; a run for a missing folder or without a configuration does nothing; a run that fails has uploaded for the first targets only, because something outside the daemon failed, and one that succeeds has met no failure but of listings; agreement of cache and remote is kept |
| BackupCycle.RunIsChronological | crates/backrd/src/ipc/handlers.rs:345-385 | Starting with snapshots of past instants, over any run there are only such, and each new name sorts last exactly if it is fresh |
| BackupCycle.LinkIsNewest | crates/backrd/src/ipc/handlers.rs:345-375 | Then the snapshot linked to is the one of the newest instant |
| BackupCycle.RecordedRowAgrees | crates/backr-core/src/project_snapshot_cache.rs:92-115 | A recorded row is what listing the remote would now show, if the new name sorts last |
| BackupCycle.RecordedCountIff | crates/backrd/src/ipc/handlers.rs:345-385 | The recorded count is right exactly if the name was fresh, and after a failed listing exactly if no other snapshot was there |
| BackupCycle.RunOperations | crates/backrd/src/ipc/handlers.rs:292-405 | Over any sequence of backups, probes and configuration changes, every operation does its part from one moment of the run to the next, and the uploads of the run are those of its parts in order; starting with snapshots of past instants, at every moment every cached row shows what is on its remote unless something outside the daemon failed or a name was used twice in a second |
| BackupCycle.PerformedAt | crates/backrd/src/ipc/handlers.rs:292-437 | Its part means: a backup uploads for every project folder, or the one asked for, of the configuration at that moment, all of them exactly once if it succeeds, and fails for a cause; a probe changes the cache only, which without faults then shows every project; a save installs the configuration |
| BackupCycle.Daemon.ListAndProbe | crates/backrd/src/ipc/handlers.rs:802-929 | Rows agree with the remote except, as many as listings failed, those from the cache; what is saved answers a later cache-only listing identically but for the cache flag; it fails only without a configuration or because the projects folder or the known hosts could not be found |
| BackupCycle.Daemon.ListFromCache | crates/backrd/src/ipc/handlers.rs:802-929 | Under a plain remote a cache-only listing shows no row recorded for another one, and rows that agree with the remote if the cache does; it fails exactly without a configuration or if the projects folder cannot be read |
| Restore.Home.Uniquify | crates/backrd/src/ipc/handlers.rs:1360-1380 | The base if free, else the least free suffix from 1 to 9999; fails exactly if all are taken |
| Restore.Home.RestoreSingle | crates/backrd/src/ipc/handlers.rs:1213-1247 | The destination did not exist before and belongs to its snapshot; it fails only if something outside failed or every suffix is taken |
| Restore.Home.RestoreProject | crates/backrd/src/ipc/handlers.rs:1257-1295 | Exactly the valid snapshots on the host, once each, newest first, each into a folder of its own; a failed run has restored the first of them, and has a cause |
| Restore.Home.RestoreAllProjects | crates/backrd/src/ipc/handlers.rs:1165-1194 | Every project in order, every valid snapshot of it once, newest first; all destinations new, distinct and fit for their snapshots; rows say what went where and leave out exactly the projects without a valid snapshot; a failed run stops on the way, for a cause; nothing in the home directory goes away |
| Restore.LaterFirst | crates/backrd/src/ipc/handlers.rs:1257-1295 | In that order, of the snapshots of one project the chronologically later ones come first |
| Restore.DestinationIsOneComponent | crates/backrd/src/ipc/handlers.rs:1301-1327 | Whatever the snapshot is called, the destination is a single valid component of the home directory |
| Restore.DestinationNames | crates/backrd/src/ipc/handlers.rs:1301-1327 | The folder of a valid snapshot is "Projects-" and its name; that of any other has the safe characters of its name in their places, or "snapshot", and the time |
| Shell.CommandRoundTrip | crates/backr-core/src/backup/ssh.rs:36-42 | Any correct quoting of the words, joined by spaces, is tokenized back to exactly the argument vector |
| Shell.SingleQuoteQuotes | crates/backr-core/src/host_trust.rs:43-45 | The repository's quoter is such a quoting of every NUL-free word |
| Shell.SingleQuotedRoundTrip | crates/backr-core/src/host_trust.rs:43-45 | With it the round trip holds for NUL-free argument vectors and no others |
| Shell.MixedRoundTrip | crates/backr-core/src/backup/ssh.rs:36-42 | Words of harmless characters may be left bare, in any mixture with quoted ones, but for a first word with "=" |
| Paths.JoinResolves | crates/backr-core/src/backup/ssh.rs:68-75 | Joining resolves like walking on from the base, for any surplus slashes |
| Paths.RelativePathResolves | crates/backr-core/src/backup/validate.rs:39-111 | An accepted path resolves to its own segments below root, project and snapshot |
| Paths.SnapshotRootIsAbsolute | crates/backr-core/src/backup/ssh.rs:68-92 | Below an absolute root every joined path is absolute |
| Paths.ListPathResolves | crates/backrd/src/ipc/handlers.rs:980-1005 | Whatever listing accepts stays inside the snapshot |
| Paths.ReadPathResolves | crates/backr-core/src/backup/ssh.rs:193-227 | Whatever reading accepts stays inside the snapshot |
| Paths.RootIsFound | crates/backrd/src/ipc/handlers.rs:980-1005 | No path, and ".", list the snapshot itself |
| Paths.ListRefusesIff | crates/backr-core/src/backup/validate.rs:86-111 | Any other path is refused exactly if it has nothing but slashes, or a NUL, a newline or a segment ".." |
| Paths.FilesAreFound | crates/backr-core/src/backup/validate.rs:86-111 | Every path of file names without newlines, and without white space around it, is accepted by listing and leads to that file; reading accepts it exactly if it has no two adjacent dots |
| Paths.ReadRefusesIff | crates/backr-core/src/backup/ssh.rs:193-227 | Of all paths that listing accepts, reading refuses exactly those with two adjacent dots and those of which two normalizations leave nothing |
| Paths.SamePlaceIff | crates/backrd/src/ipc/handlers.rs:980-1089 | Where both accept a path, they look in the same place exactly if no white space follows its leading slashes |
| AuthorizedKeys.AppendAddsLine | crates/backr-core/src/host_trust.rs:320-355 | Appending adds exactly one line, whether or not the file ended in a newline |
| AuthorizedKeys.TrustStore.Append | crates/backr-core/src/host_trust.rs:305-374 | Adds a fresh valid key once and leaves the file alone otherwise; the count is that of the new text |
| AuthorizedKeys.RemoveFilters | crates/backr-core/src/host_trust.rs:476-508 | Removing filters out exactly the matching lines, but that a sole remaining blank line vanishes |
| AuthorizedKeys.RemoveKeepsOtherKeys | crates/backr-core/src/host_trust.rs:476-508 | Every copy of the key goes and no other key does |
| AuthorizedKeys.TrustStore.Remove | crates/backr-core/src/host_trust.rs:476-508 | Reports removal exactly if the line was there, with the count of the new text |
| AuthorizedKeys.AppendThenRemove | crates/backr-core/src/host_trust.rs:305-508 | Adding a fresh key and removing it restores the list of keys |
| AuthorizedKeys.NormalizedLines | crates/backr-core/src/host_trust.rs:52-59 | Normalizing yields one trimmed line without carriage returns |
| AuthorizedKeys.BlankIsRefused | crates/backr-core/src/host_trust.rs:52-59 | Exactly blank text is refused |
| AuthorizedKeys.KnownKeyTypes | crates/backr-core/src/host_trust.rs:28-31 | Exactly the lines that begin with one of the eight key types and white space are keys |
| AuthorizedKeys.EntryRoundTrip | crates/backr-core/src/host_trust.rs:427-450 | Fields separated by single spaces are read back, whatever the comment contains, and without a comment |
| AuthorizedKeys.ListedEqualsCountedIn | crates/backr-core/src/host_trust.rs:427-450 | All counted keys are listed exactly if each has a space |
| AuthorizedKeys.TabSeparatedKeyIsNotListed | crates/backr-core/src/host_trust.rs:427-450 | A key separated by tabs is counted but not listed |

## Left out

- Swap.Host.ApplySwap: assumes that targets, backups, temporaries and staged files of different swaps do not coincide (shown for releases by `Update.ReleaseSwapsDisjoint`), that no other process changes these paths, and that a failed rename or removal changes nothing; removal before a rename that fails may leave a target missing, its backup staying.
- Update.Updater.ApplyUpdate: assumes that the fresh staging directory is not an ancestor of the home directory; progress messages are not modelled, and downloads are arbitrary bytes.
- Release.ParsesIff: JSON parsing of release documents is not modelled; SHA-256 and UTF-8 decoding are parameters.
- Jobs.RetryConservation: the step systems are values and transition functions rather than objects, because their subject is interleaving; timers are assumed prompt, and events broadcast by jobs are left to `Connection`.
- Connection.AllAnsweredInOrder: JSON decoding is a parameter, serialisation is assumed not to fail, and partial writes count as not written.
- Client.SendInner: connecting, writing the request and the mapping of error kinds are not modelled.
- PairingWindow.JoinedThreadCanFinish: says that the joined thread can finish, not that it does: the session lock is taken to be free to pass over those that wait, while the library's is fair, and a join that blocks a worker thread of the runtime is not modelled.
- PairingWindow.WindowsExpire: calls of `start_pairing` are serialised and timers are prompt; mDNS and the HTTP server are reduced to `unblock` and `join`.
- Pairing.Window.Serve: a request is handled in one step, which the session lock guarantees; text that a failing write leaves behind in `authorized_keys` is not modelled; codes are byte strings and their randomness is not modelled.
- Schedule.OneLiveLoop: restarts are serialised for this property (`OverlappingRestartsLeaveTwoLoops` shows why), one clock serves for wall and monotonic time, and timers are prompt.
- Snapshots.NameRoundTrip: the parser of timestamps accepts what the format describes; leniencies of the chrono library on hand-made names are not modelled, and what `\d` matches in a regular expression is a parameter.
- FindRecords.ListingRoundTrip: modification times are parsed by a parameter, and names that are not UTF-8 are not modelled.
- BackupCycle.RunOperations: runs are sequential, and agreement is claimed for runs without failures outside the daemon (those are covered by `ExecuteBackupCycle` and `RecordedCountIff`); the clock does not go back; saves of the configuration during a run are modelled, and are lost as in the code.
- Restore.Home.RestoreAllProjects: other processes creating folders between the check and the creation are not modelled.
- Shell.CommandRoundTrip: the source of the `shell_escape` crate is not part of this model; the lemma holds of every quoter with its documented contract (`IsQuotingOf`).
- Shell.MixedRoundTrip: the tokenizer has no assignments and reserved words, so a bare first word with "=" is excluded and a bare reserved word there is not told apart; the programs' own first words are fixed command names.
- Paths.RelativePathResolves: symbolic links are not followed, resolution is lexical.
- AuthorizedKeys.TrustStore.Append: the privileged helper and the sudo snippet are not modelled beyond reporting that the file cannot be written; writes do not fail half way.
- The user interface, the tray, the command line, mDNS discovery, disk statistics, set-up scripts and the activity chart: thin layers or finite tables.
- The update throttle, the update worker and the service controllers: easy members around the pipeline.
