# Verified model of the mail proxy

A Dafny model of the four parts of the mail proxy that carry state or arithmetic: folder
names and the stale-folder check, the watchdog's statistics and alerts, the VPN supervisor,
and the credentials with the sync threads. `dafny verify dfyconfig.toml` checks all of it.

- **Folder names** (`Base64`, `Utf16`, `ModifiedUtf7`, `Separators`, `ImapList`, `ChunkErrors`,
  `StaleFolders`). The
  index-driven decoder and the LIST parser are methods with loops, each equal to a recursive
  function. The other side is the encoder of section 5.1.3 of RFC 3501 (base64 of section 4 of
  RFC 4648, UTF-16 of section 2 of RFC 2781) and the responses of section 7.2.2 of RFC 3501.
  The moves out of the Maildir are a class over the directories and what `stale-folders` holds.
- **Watchdog** (`DaySets`, `UptimeTrace`, `UptimeStats`, `UptimeRefinement`,
  `UptimeProperties`, `UptimeOutages`, `UptimeFigures`, `AlertHistory`, `Watchdog`). `UptimeTrace`
  says what every figure means as a function of the whole sequence of probes; `UptimeStats.Stats`
  is the class that keeps them up to date one probe at a time; `UptimeRefinement` shows that the
  two agree after any probes, alert marks and restarts. `UptimeFigures` writes every counter out
  as a sum over gaps or a count of probes, `UptimeOutages` every record. `AlertHistory` says when each notification is due
  from the history alone, and `Watchdog.Watch` is the main loop, proved to send exactly those.
- **VPN supervisor** (`RefreshSchedule`, `VpnSupervisor`, `Reconnects`, `OneTimeCodes`, `TokenAge`,
  `RealClock`, `VpnShell`).
  `VpnSupervisor` is a state machine over the clock, the token, the flag file, the timer and the
  gateway, in every interleaving; `Reconnects` says which token each tunnel start uses,
  `OneTimeCodes` adds the moment a login presents its code,
  `TokenAge` the schedule and `RealClock` real time.
  `VpnShell.Shell` is the shell program itself, with its endless loop, branching on its own
  globals while the world does what it likes: whatever happens is a run of the machine, and
  each turn has exactly the outcome that the world's choices call for.
- **Credentials and sync threads** (`Usernames`, `Credentials`, `CredentialFiles`,
  `CredentialCooldown`, `CredentialStore`, `SyncLocks`, `SyncManager`). `Credentials` interleaves
  logins, syncs, sends and watchers that touch one file at a time; `CredentialFiles` and
  `CredentialCooldown` say exactly which steps of them take the two password files apart, and
  which let the university be asked too often. `CredentialStore` has the sequential operations
  as a class. `SyncLocks` interleaves the threads of `idle.py`.

Inputs from outside are parameters: clock readings, probe results, the university's answers,
the server's lines, directory listings and which moves fail.

## Where the code and its description differ

- `parse_list` says lines that do not parse are skipped. A line whose name is not valid
  modified UTF-7, such as `() NIL &A-`, is not skipped: the exception ends the whole listing
  (`ImapList.ListFailsExactly`, `ImapList.UndecodableLine`; `ChunkErrors` says which names).
- Translating the separator before or after decoding is the same exactly for printable ASCII
  separators outside "&", "-" and the shifted alphabet (`Separators.SeparatorCommutes`), and
  exactly these keep every listed folder in place (`StaleFolders.KeptIffSafe`). With any other a
  live folder can be moved away. The usual "/" and "." are on the good side.
- DOWN is sent in a failure streak of a process iff the streak follows a healthy tick of that
  process and reaches the threshold. An outage cut by a restart before the threshold is never
  announced by the new process, which still reports its recovery (`AlertHistory.OutageAnnounced`).
- A rejected password is shut out when its hash is removed, unless a login the university
  accepted it for is still storing it (`Credentials.RejectedIsShutOut`), which can happen
  (`Credentials.RejectedStillPasses`).
- The hash and the encrypted password can end up of different passwords. Exactly these steps
  open the way: storing a password across a removal or across the storing of another one,
  removing across a storing, and cutting short the only process between the files while the
  second is still to do. Any number of removals, and any number of logins with one password, may
  overlap (`CredentialFiles.StepExact`, `CredentialFiles.RunExact`).
- The cooldown holds, in all interleavings, iff no login passes its test between the test and
  the stamp of another (`CredentialCooldown.StepExact`, `CredentialCooldown.RunExact`).
- The comment in `mint_token` says that no one-time code is presented twice. The spacing is
  between the starts of logins, and a login presents its code some seconds later. Presented `d`
  and `e` seconds after the starts of consecutive logins, the codes differ in every run iff `d` is
  at most `e + 2`, or the later login alone fills a 30 s step (`OneTimeCodes.NeverTwiceIff`); for all
  other delays there is a run in which they are the same (`OneTimeCodes.CodeTwice`).
- Differing times in the schedule do not keep a token below the largest gap: a scheduled time
  that falls between two tunnels is missed, and the age limit is then added to the gap
  (`TokenAge.TokenWithinGap`, `TokenAge.AgeReached`).
- The supervisor's clock is `date +%s`. Logins are 32 apart by that clock, so more than 31 s
  apart in real time, and any distance above 31 s is possible (`RealClock.RealSpacing`,
  `RealClock.JustOver31`).

## Model

| member | source | states |
|---|---|---|
| Base64.RoundTrip | mail/imap_list.py:30-32 | For all bytes, unpadded base64 plus the padding the code computes decodes to exactly those bytes |
| Utf16.RoundTrip | mail/imap_list.py:32 | UTF-16BE decoding with its surrogate checks undoes encoding, for all scalar values |
| ModifiedUtf7.ImapUtf7Decode | mail/imap_list.py:14-37 | The index loop returns, or raises, exactly what the recursive decoder says |
| ModifiedUtf7.ShiftedRun | mail/imap_list.py:26-32 | A shifted run is never 1 mod 4 long, contains only its alphabet (so no "-"), and decodes to its text |
| ModifiedUtf7.OpenRunIsText | mail/imap_list.py:21-25 | Text in which no "&" is followed by a "-" is its own decoding |
| ModifiedUtf7.RoundTrip | mail/imap_list.py:14-37 | Decoding the standard's encoding of any sequence of scalar values gives it back |
| ModifiedUtf7.EncodeInjective | mail/imap_list.py:14-37 | Different names have different encodings |
| Separators.SeparatorCommutes | mail/sync.py:123-126 | Translating the separator before or after decoding agrees on all names iff the separator is printable ASCII outside "&", "-" and the shifted alphabet |
| ImapList.ParseList | mail/imap_list.py:40-56 | The loop returns the entries of the lines that match, in order, or the first decoding error |
| ImapList.MatchExact | mail/imap_list.py:11-49 | A line matches, and yields these flags, separator and name, iff it spells them with blanks between and around: flags up to the first ")", a quoted separator or NIL, a name on one line |
| ImapList.UnquotedExact | mail/imap_list.py:52-54 | Quotes are taken from a name only as a pair around it; any other name stays |
| ImapList.AsciiExact | mail/imap_list.py:50-55 | Bytes beyond ASCII are read as the replacement character, one for one |
| ImapList.LineRoundTrip | mail/imap_list.py:11-55 | A line rendered from name, flags and separator is read back as exactly those, quoted or not |
| ImapList.ListRoundTrip | mail/imap_list.py:40-56 | A rendered response parses to exactly its entries in order, whatever unparseable lines stand between |
| ImapList.ListFailsExactly | mail/imap_list.py:55 | Parsing fails iff some matching line's name cannot be decoded |
| ImapList.UndecodableLine | mail/imap_list.py:47-55 | The line `() NIL &A-` matches and its name cannot be decoded, so a listing with it fails |
| ChunkErrors.ChunkExact | mail/imap_list.py:26-32 | Any chunk, whatever characters it has, cannot be decoded iff it is not ASCII, or its last group of four is not completed by its own or the added padding, or the bytes it spells up to the first completed padding are not well-paired UTF-16; otherwise it decodes as those bytes |
| ChunkErrors.AlphabetExact | mail/imap_list.py:30-32 | A chunk over its own alphabet cannot be decoded iff its length is 1 mod 4 or the bytes it spells are not well-paired UTF-16 |
| ChunkErrors.NameExact | mail/imap_list.py:19-37 | A name cannot be decoded iff one of the chunks the loop comes to cannot |
| ChunkErrors.BrokenChunkFails | mail/imap_list.py:40-56 | A listing fails iff some name in it has such a chunk |
| StaleFolders.FarSideFolders | mail/sync.py:124-132 | The set of far names: each listed name with its own separator translated to "." |
| StaleFolders.TranslateExact | mail/sync.py:126 | For separators of any length: a name without the separator stays, in any other the first occurrence becomes a dot and the rest is translated |
| StaleFolders.LocalSubfolders | mail/sync.py:142-148 | The dot entries of a listing that are directories, with decoded names, or the first decoding error |
| StaleFolders.Mailbox.QuarantineStaleFolders | mail/sync.py:151-190 | The new Maildir and stale-folders are those of the move-by-move specification; a decoding error changes nothing |
| StaleFolders.MovesConserve | mail/sync.py:182-190 | Any pattern of failed moves only relocates folders: contents kept, destinations fresh and distinct, nothing else touched |
| StaleFolders.QuarantineConserves | mail/sync.py:169-190 | Every folder and its contents survive; only stale folders move, so INBOX and live folders stay |
| StaleFolders.QuarantineReachesGoal | mail/sync.py:169-190 | Every subfolder left decodes to a far name or INBOX, or its move failed, or its place was taken |
| StaleFolders.StaleFolderPlaced | mail/sync.py:180-190 | A stale folder whose move does not fail ends up at its decoded name with the time stamp; inside that place under its own directory name when it is taken; several of one name share it, and only with both places taken does it stay |
| StaleFolders.DiskNameDecodes | mail/sync.py:135-148 | The on-disk name of a far folder decodes to the translated far name, for every safe separator |
| StaleFolders.LiveFolderStays | mail/sync.py:123-190 | From raw server lines to the disk: the directory of a listed folder is never moved |
| StaleFolders.DashSeparatorMovesLiveFolder | mail/sync.py:126-190 | With separator "-" a live folder with a shifted name is moved away |
| StaleFolders.KeptIffSafe | mail/sync.py:126-190 | Every listed folder stays, whatever its name, iff the separator is a safe one |
| RefreshSchedule.SecondsUntilNextRefresh | vpn/entrypoint.sh:186-196 | The wait ends at the first listed time after now, of all days; 23 h without times |
| RefreshSchedule.WarnIfScheduleUnsafe | vpn/entrypoint.sh:199-219 | The scan finds the largest cyclic gap of the sorted times and warns iff it is a day or nothing is listed |
| RefreshSchedule.GapsFillTheDay | vpn/entrypoint.sh:207-212 | The cyclic gaps add up to 1440 minutes |
| RefreshSchedule.MaxGapIsWorstWait | vpn/entrypoint.sh:186-219 | No instant waits longer than the computed gap, and some instant waits exactly that long |
| RefreshSchedule.SilentIffTimesDiffer | vpn/entrypoint.sh:213-217 | The warning is silent iff two listed times differ |
| VpnSupervisor.EveryRun | vpn/entrypoint.sh:237-351 | All invariants hold after any interleaving of loop, timer, tunnel, gateway and time |
| VpnSupervisor.LiveTokensOnly | vpn/entrypoint.sh:252-350 | Every tunnel start uses the complete COOKIE, FP and HOST that were the one answer of a login, minted after that login began and below the age limit when checked, never a token the gateway logged out |
| VpnSupervisor.LoginsSpaced | vpn/entrypoint.sh:237-246 | Any two login starts are at least 32 s apart, hence in different 30 s steps |
| OneTimeCodes.NeverTwiceIff | vpn/entrypoint.sh:237-264 | The codes of consecutive logins, presented d and e seconds after their starts, are in different 30 s steps in every run iff d is at most e + 2 or the later login alone fills a step |
| OneTimeCodes.AllCodesDiffer | vpn/entrypoint.sh:237-264 | With such delays between each two consecutive logins, no code of a run is presented twice |
| OneTimeCodes.CodeTwice | vpn/entrypoint.sh:237-264 | For any other delays there is a run in which two logins present the same code |
| VpnSupervisor.NoHotLoop | vpn/entrypoint.sh:286-351 | k tunnel starts take at least 4.5 (k - 1) seconds from the first login start, however tunnels end |
| VpnSupervisor.NoBurst | vpn/entrypoint.sh:286-351 | The same rate counted from any later login start |
| VpnSupervisor.ThreeExitsEndToken | vpn/entrypoint.sh:329-342 | No token is presented a fourth time after three immediate exits in a row |
| Reconnects.DecisionExact | vpn/entrypoint.sh:315-350 | After a tunnel the token is thrown away iff the timer rang since it was raised, or its log shows a rejection, or this was every third immediate exit in a row; otherwise token, login and mint time stay; which ending it was and the pause of each |
| Reconnects.NextStartExact | vpn/entrypoint.sh:286-350 | Two consecutive tunnel starts of any run use the same login iff the token was kept and no login came between, and after a kept token a login only comes at the age limit |
| Reconnects.SessionEnds | vpn/entrypoint.sh:299-313 | After a tunnel the gateway has ended its session exactly when the refresh timer killed it alive |
| TokenAge.TokenAgeBound | vpn/entrypoint.sh:290-308 | With a timer that rings on time, a running tunnel is refreshed within the largest gap of the schedule, and its token is younger than the age limit plus that gap, plus the time commands take |
| TokenAge.TokenWithinGap | vpn/entrypoint.sh:299-308 | With a tunnel up at each scheduled time since the login, a tunnel's token is never older than the largest gap |
| TokenAge.AgeReached | vpn/entrypoint.sh:287-308 | Otherwise the bound is reached: for every schedule and age limit above 5 s, a run with a token one second younger than limit plus gap |
| RealClock.RealIsRun | vpn/entrypoint.sh:241-246 | Sleeps that last long enough in real time last long enough by the whole-second clock, so every real run is a run of the machine |
| RealClock.RealSpacing | vpn/entrypoint.sh:237-246 | Login starts are really more than 31 s apart |
| RealClock.JustOver31 | vpn/entrypoint.sh:237-246 | For every distance above 31 s and up to 32 s there is a run with two logins exactly so far apart |
| VpnShell.Shell.MintToken | vpn/entrypoint.sh:237-264 | A login starts once the code has rolled over and ends in success iff all three values came, which are then the token, minted now; otherwise there is no token, or the old one when the command failed; a run of the machine |
| VpnShell.Shell.EnsureToken | vpn/entrypoint.sh:287-292 | Ready iff the token was fit at the check, which changes nothing, or the login that is then made got a complete answer; a run of the machine |
| VpnShell.Shell.HoldTunnel | vpn/entrypoint.sh:294-313 | The tunnel presents the token at hand; time goes by exactly as the happenings say, the timer is set for the first scheduled time after that moment, the flag is there iff the timer rang, and the wait ends iff the tunnel died; a run of the machine |
| VpnShell.Shell.ComeBack | vpn/entrypoint.sh:315-350 | The four ways back: token, exit count, ending and pause of each |
| VpnShell.Shell.Supervise | vpn/entrypoint.sh:285-351 | The endless loop: every turn of the list is played, each with the login, tunnel start, ending, token and time its choices call for, until one leaves the tunnel up; all of it a run of the machine, so logins and tunnel starts are spaced, no logged-out token is presented, and none a fourth time after three immediate exits |
| UptimeStats.Prune | watchdog/watchdog.py:229-231 | Deleting oldest days one by one leaves exactly the newest ones |
| UptimeStats.Stats.Account | watchdog/watchdog.py:270-288 | New counters and row for one credited interval |
| UptimeStats.Stats.CloseOutage | watchdog/watchdog.py:331-355 | Files the outage, counts it in lifetime and row, remembers it and opens none |
| UptimeStats.Stats.Record | watchdog/watchdog.py:290-324 | All fields after one probe, and whether it ended an outage |
| UptimeStats.Stats.MarkAlerted | watchdog/watchdog.py:326-329 | Marks the open outage and counts it once |
| UptimeStats.Stats.Window | watchdog/watchdog.py:358-366 | Up and down seconds of the rows of the last days |
| UptimeStats.Stats.Save | watchdog/watchdog.py:234-255 | The saved files hold the fields |
| UptimeRefinement.ObserveRefines | watchdog/watchdog.py:270-355 | One probe on statistics that mean a trace gives statistics that mean the longer trace, in every field |
| UptimeRefinement.MarkRefines | watchdog/watchdog.py:326-329 | Marking keeps that meaning, with the outage alerted |
| UptimeRefinement.RunMeansTrace | watchdog/watchdog.py:170-355 | After any probes, marks and restarts every field is the declared function of the whole trace |
| UptimeRefinement.RestartTransparent | watchdog/watchdog.py:197-255 | Any restarts, each after a completed save, leave exactly the statistics of the unbroken run |
| UptimeFigures.LifetimeFigures | watchdog/watchdog.py:270-341 | Lifetime up seconds are the sum of the gaps after healthy probes, down seconds of those after failed ones, each cut off at the cap; the counters are the numbers of healthy probes, failed probes and recoveries |
| UptimeFigures.RowFigures | watchdog/watchdog.py:221-345 | A day's row holds the gaps closed on that day, its healthy and failed probes, the recoveries on it and the longest streak they ended |
| UptimeProperties.LifetimeExact | watchdog/watchdog.py:270-288 | Lifetime up and down are the capped gaps split by health of the opening probe; up + down = monitored, at most last minus first time, equal iff no gap was capped |
| UptimeProperties.SteadyProbesMonitored | watchdog/watchdog.py:174-178 | With the cap taken from INTERVAL, all time is monitored while probes are at most two intervals apart, and not all when a gap exceeds both that and two minutes |
| UptimeProperties.ReportExact | watchdog/watchdog.py:221-366 | A window of at most MAX_DAYS days reports all seconds ever credited to those days; rows never exceed MAX_DAYS |
| UptimeProperties.WindowsNested | watchdog/watchdog.py:358-379 | Longer windows report no less, and no more than the lifetime, for windows of any length and any number of days kept |
| UptimeProperties.RecentDaysKept | watchdog/watchdog.py:228-231 | No day within the last MAX_DAYS calendar days is pruned |
| UptimeProperties.RetainedPlusPruned | watchdog/watchdog.py:221-288 | Lifetime totals are the retained rows plus the credits of pruned days |
| UptimeProperties.RowBounded | watchdog/watchdog.py:270-288 | up + down = monitored in each row, below a day plus one cap |
| UptimeOutages.ClosedRunsExact | watchdog/watchdog.py:298-318 | The finished outages are exactly the maximal failure streaks followed by a healthy probe |
| UptimeOutages.OutagesAreStreaks | watchdog/watchdog.py:290-355 | An outage is open iff the last probe failed; it counts the trailing failures and tells them: start, first distinct errors, first samples, alerted or not; failed probes are the sum over all outages |
| UptimeOutages.FileKeepsLatest | watchdog/watchdog.py:257-355 | Of k finished outages the file holds the last min(k, MAX_OUTAGES), oldest first, each record telling its streak; the one just closed is the last, and the one remembered |
| UptimeOutages.OutagesDisjoint | watchdog/watchdog.py:331-346 | Finished outages are ordered and do not overlap |
| UptimeOutages.DistinctExact | watchdog/watchdog.py:314-315 | The error texts collected are exactly the distinct ones of the streak |
| AlertHistory.AlertProtocol | watchdog/watchdog.py:434-488 | Main-path notifications are a prefix of [never] online (DOWN recovered)*, or of recovered (DOWN recovered)* after resuming; upstream ones alternate from "down" |
| AlertHistory.OutageAnnounced | watchdog/watchdog.py:423-458 | Every message in and right after any failure streak, ended or not: after a healthy tick, DOWN iff max(1, threshold) failures are reached, at the probe that completes them, and "recovered" iff DOWN was sent; from the start of the process, "never up" at the first tick beyond the grace period unless an outage was resumed, and then "recovered" iff resumed, else "online" |
| AlertHistory.PathAnnounced | watchdog/watchdog.py:474-488 | Every failure of the university path is announced at its first tick with a healthy mail path and only there; its end iff it was announced |
| Watchdog.LoopAgreesWithStats | watchdog/watchdog.py:415-464 | `fails` is the open outage's count; each DOWN or never-came-up adds exactly one alerted outage |
| Watchdog.Watch | watchdog/watchdog.py:410-488 | The loop sends exactly the notifications its history calls for, in order, and leaves files that mean all probes of all processes |
| Watchdog.ProcessIsRun | watchdog/watchdog.py:410-466 | A process's statistics are those of a run of operations, so all results above apply across processes |
| Usernames.BothFormsAgree | mail/authcheck.py:55-60 | DOMAIN\name and name are the same local identity iff what stripping behind leaves of the name has no backslash and no space in front |
| Usernames.IdentityExact | mail/authcheck.py:55-60 | An identity has no capital letter and otherwise keeps what the stripped name has behind its first backslash |
| Usernames.OneIdentity | mail/authcheck.py:55-60 | Names that differ only in the case of letters or in blanks around them are one identity |
| Usernames.UpstreamRoundTrip | mail/authcheck.py:55-65 | An identity survives the detour over the university's form iff lower case without trailing space |
| Credentials.AdmittedWasVouched | mail/authcheck.py:193-206 | In every interleaving, whoever is let in gave a password the university accepted in this very login process, or in the process that stored the hash still there |
| Credentials.OnlyRejectionDrops | mail/idle.py:171-181 | In every interleaving, whoever removes a credential file was turned away by the university since it read the password; no other answer de-enrols anyone |
| Credentials.UnaskedIff | mail/authcheck.py:193-206 | A password can pass without the university accepting it again iff its hash is stored or an accepted login is still storing it |
| Credentials.RejectedIsShutOut | mail/authcheck.py:129-143 | After the removal of the hash that holds iff an accepted login is still storing it |
| Credentials.RejectedStillPasses | mail/authcheck.py:129-143 | A run from the empty store to that exception: a hash about to be removed, its password in flight |
| CredentialFiles.FilesAgree | mail/authcheck.py:116-143 | While all steps are orderly, both files are of the same password whenever nobody is between them |
| CredentialFiles.StepExact | mail/authcheck.py:116-143 | From an agreeing state, a step opens the way to different files with nobody at work iff it is not orderly |
| CredentialFiles.RunExact | mail/authcheck.py:116-143 | A run is orderly iff at no point of it different files are to be feared |
| CredentialFiles.OverlapDisagrees | mail/authcheck.py:116-121 | A run from the empty store in which two overlapping enrolments leave different passwords |
| CredentialCooldown.ChecksSpaced | mail/authcheck.py:154-167 | In every interleaving without overlapping tests, n checks with no de-enrolment between take at least n - 1 cooldowns by their stamps, even if the clock steps back |
| CredentialCooldown.StepExact | mail/authcheck.py:154-167 | A step opens the way to two checks less than a cooldown apart iff it passes the test inside another login's section |
| CredentialCooldown.RunExact | mail/authcheck.py:154-167 | A run has no overlapping tests iff at no point of it two checks less than a cooldown apart are to be feared |
| CredentialCooldown.CooldownRace | mail/authcheck.py:154-167 | A run from the empty store in which two overlapping logins both reach the university at the same instant |
| CredentialStore.CredStore.CooldownOk | mail/authcheck.py:154-167 | True and stamped iff a full cooldown passed since the stamp; other users untouched |
| CredentialStore.CredStore.Enroll | mail/authcheck.py:116-126 | Both files of this user hold the password; other users untouched |
| CredentialStore.CredStore.Deauth | mail/authcheck.py:129-143 | All three files of this user are gone; other users untouched |
| CredentialStore.CredStore.Authenticate | mail/authcheck.py:193-206 | Verdict, files and whether the university was asked, per case; other users untouched |
| CredentialStore.CredStore.Login | mail/authcheck.py:209-224 | Either form of the user name logs in to one account; an empty password or a name without "@" is denied and changes nothing |
| CredentialStore.CredStore.Act | mail/sync.py:196-238 | Presents the stored password and de-enrols on a rejection |
| CredentialStore.AloneMatches | mail/authcheck.py:154-206 | The file-by-file login, undisturbed, computes exactly the sequential one: it admits iff that does, ends at an unreachable university iff the verdict is temporary, at the cooldown or a rejection iff it is denied, and asks iff it does |
| CredentialStore.AloneActs | mail/authcheck.py:129-143 | A sync, send or watcher, undisturbed, changes nothing unless the stored password is rejected, and then removes all three files |
| CredentialStore.ContactRate | mail/authcheck.py:154-167 | n checks of one user without a de-enrolment between take at least n - 1 cooldowns by their stamps, even if the clock steps back |
| CredentialStore.RightPasswordReturns | mail/authcheck.py:129-143 | After a de-enrolment the first login with an accepted password succeeds at once; until something else is stored or dropped, later logins pass iff they have that password, without asking, whatever is tried between |
| CredentialStore.BothFilesAgree | mail/authcheck.py:116-143 | Sequential operations keep both files of the same password |
| SyncLocks.OneSyncPerUser | mail/idle.py:55-76 | In every interleaving at most one thread syncs a user |
| SyncLocks.FullSyncUnbroken | mail/idle.py:67-71 | No other run for the user starts between the two runs of a full sync |
| SyncLocks.SyncComplete | mail/idle.py:67-76 | In every interleaving a thread with the lock is in the sync it was last called for, which ends exactly after two runs of mbsync when called as a full one and after one when for the inbox |
| SyncLocks.CallsByRole | mail/idle.py:163-217 | The periodic thread never ends and makes full syncs only; a watcher syncs no user but its own |
| SyncLocks.NoDeadlock | mail/idle.py:55-76 | A waiting thread can take the lock, or its holder can release it |
| SyncLocks.OneWatcherPerUser | mail/idle.py:220-230 | The manager never has two live watchers for one user |
| SyncManager.Idle.UserLock | mail/idle.py:55-58 | The table keeps a user's lock and makes a new one only for a new user |
| SyncManager.Idle.Rescan | mail/idle.py:223-229 | One scan over the enrolled users has exactly the specified effect on threads and list |
| SyncManager.ScanExact | mail/idle.py:223-229 | After a scan every listed user has a live watcher, and one was started only for listed users without |
| SyncManager.ScanAgain | mail/idle.py:223-229 | Scanning again changes nothing while the watchers live |

## Left out

- `vpn/headless.py`, TLS, sockets, imaplib, smtplib, mbsync, Dovecot and Postfix: their outcomes are inputs.
- Cryptography: the password hash check is equality, encryption is lossless.
- `mail/cert.sh` obtains the TLS certificate, `mail/keys.sh` resolves the master key and discards a store encrypted under another, `mail/special_use.py` with its loop in `mail/entrypoint.sh` marks Sent, Drafts and the like for Dovecot, `subscribe_once` subscribes a new mailbox to its folders, and `_idle_wait` waits for the server's notice of new mail: they have no state of their own that the properties here depend on.
- `list_names`, which drops flags and separators from `parse_list`'s result, and the mbsync configuration text.
- Byte strings from the server are sequences of characters; literals (tuples from imaplib) and lone surrogates in directory names are not modelled.
- A missing Maildir, decoded folder names containing "/", and moves across file systems.
- Separators of several characters: `Translate` follows the code, the commutation results are about one character.
- Floating-point rounding, message texts, ISO strings, and the boot fields of the statistics.
- `MAX_DAYS` or `MAX_OUTAGES` of 0, clocks stepping backward in the statistics, saves that fail or are cut short.
- The log line and daily digest of the watchdog; a process is any finite number of ticks.
- Daylight-saving shifts and malformed schedule entries: a listed time is a minute of a 24-hour day.
- VpnSupervisor.LiveTokensOnly: killing the timer is one step.
- VpnShell.Shell.Supervise: the trap for SIGTERM, which may come at any moment; the machine has it as a step.
- TokenAge.TokenAgeBound: a timer that rings late.
- CredentialStore.ContactRate: logins one after another; `CredentialCooldown.ChecksSpaced` is about all interleavings.
- CredentialFiles.FilesAgree: one user; the users' files are apart, as the class `CredentialStore.CredStore` states.
- Usernames.BothFormsAgree: ASCII case and whitespace.
- SyncManager.Idle.Rescan: no other thread moves during one scan; `SyncLocks` has every interleaving of its steps.
- Whether a lock is ever released: a run may take up to its timeout.
