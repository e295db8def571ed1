# Verified model of the probe platform

The platform manages a fleet of monitoring probes. Under its SSH, HTTP and database traffic
sit a number of small state machines and codecs whose promises hold only through interplay.
This project models those and proves the promises, with Dafny 4.11; `dafny verify
dfyconfig.toml` checks all of it.

## How the model is built

* **Effects and loops.** A piece of state that the code updates in place is a class whose
  methods run the code's loops (`JobService`, `OverlayRuntime`, `Store`, `InventoryFile`,
  `Broadcaster`, `User`). Each method is proved to have the effect that a function on plain
  values gives it, and the laws are proved about that function.
* **Laws.** What such a function computes is stated a second time without naming it, on all
  inputs, mostly in lemmas whose names end in `Exactly`.
* **Protocols.** Where several actors interleave (job workers, the lease reaper, operators,
  crashes; invitations and attachments; sensor processes around one lock; a log writer, its
  subscribers and a reader) one `Action` is one atomic step, an action that is not possible in
  a state changes nothing, and `Reach(actions)` is the state after any list of them. The
  theorems quantify over all lists.
* **Parameters.** Clocks, handlers, container exit codes, random salts, the HMAC and what a
  probe answers are parameters. Host hashing is assumed to be free of collisions
  (`CollisionFree`), nothing else is assumed of it.

| area | files |
|---|---|
| Job scheduler | `JobTable`, `JobQueue`, `JobService`, `JobProtocol`, `JobSafety`, `JobGuarantees`, `JobEndings`, `JobHarm`, `JobReclaim` |
| Overlay addresses and invitations | `OverlayTable`, `EnrollmentService`, `OverlaySafety`, `InvitationLaws` |
| Reconciliation | `StableSort`, `Versions`, `Placeholders`, `Patterns`, `ProbeConfig`, `Reconciliation`, `ReconcilePlan`, `ReconcileFindings`, `ReconcileRun` |
| Sensors | `ThroughputLock`, `TrafficVolume`, `BillingPeriod`, `LinkQuality` |
| Stores, codecs, streams, sign-in | `KnownHosts`, `EnvFile`, `ProbeEnv`, `ShellQuoting`, `EventBroadcaster`, `JobStream`, `SignIn` |

## Where the code falls short of its promise

In these cases the code is modelled as it is, a lemma gives a concrete input or run, and
another states exactly when the promise holds.

* **A job handed back can be claimed too early.** `release_to_queue` commits before the
  worker drops the job from `_active`; another worker may claim it in between. The first worker's
  `discard` then leaves a running job uncarried, the reaper frees its lock after a lease, and two
  handlers share a resource (`JobReclaim.EarlyReclaimBreaksExclusion`). From any such claim on,
  without a further one, the job can be declared finished and lose its locks under its handler
  (`JobHarm.ReclaimHarms`), unless it is one that never starts: its type is unknown, or it declares
  a resource twice. A run keeps its promises, and will whatever follows without another such claim,
  if and only if it has none (`JobHarm.RunIsSafeExactly`).
* **`attach` does not know of address-only invitations.** It allocates over peers and
  reservations alone, so it may give away what such an invitation was promised, and the hub
  then lists an address twice (`OverlaySafety.AttachBreaksTheHub`). Addresses and promises stay
  apart throughout a run if and only if no attachment does so
  (`OverlaySafety.RunStaysApartExactly`), and one that does hurts the hub exactly where the
  invitation is another account's (`OverlaySafety.CollisionHurtsExactly`).
* **Subnets from /24 to /30 are accepted but hold no peer**, because peers begin at index 256
  (`OverlaySafety.NarrowSubnetsHoldNoPeer`).
* **Reconciliation need not converge.** The comparison honours a pin, the rollout always ships
  the catalogue's version: a sensor pinned to anything else is outdated after every run
  (`ReconcileRun.PinIsNeverReached`). A desired name is not checked when it is saved: "My Probe"
  is planned for and refused by every run (`ReconcileRun.BlankInTheNameIsRefused`), and a refusal
  ends the run before any sensor (`ReconcileRun.RefusedConfigurationStops`). The rendering fills
  later placeholders inside the name as well: "p@@NATS_USER@@" is accepted and never reached
  (`ReconcileRun.MarkInTheNameNeverSticks`), "p@@X@@" is refused
  (`ReconcileRun.UnknownMarkIsRefused`), and a name ending in a line break is reported without it
  (`ReconcileRun.LineBreakNeverSticks`). The next plan is empty exactly if the restart,
  configuration and certificate that are due can be carried out, the name read back from the
  rendered text is the desired one or none, and every sensor touched can be settled by a
  deployment (`ReconcileRun.ConvergesExactly`). Of an accepted name this can be told by looking at
  it: it holds no placeholder and does not end in a line break
  (`ReconcileRun.NameSettlesExactly`).
* **The preview can announce more than the job does.** The preview compares tools, the job
  does not pass them (`web/backend/app/workers/handlers/probe_lifecycle.py:284-296`), although
  the plan's own documentation says that both use the same set of actions. The difference is
  exactly `ReconcileRun.PreviewAgainstJob`; `ReconcileRun.PreviewPromisesMore` is an example.
* **Pinning compares key blobs and not algorithms**: the pinned blob under another algorithm is
  accepted and not read back (`KnownHosts.AlgorithmIsNotCompared`; exactly
  `KnownHosts.SameKeysExactly`). Forgetting a host drops whole lines, so that a plain line with
  two names unpins both (`KnownHosts.ASharedLineIsLost`; exactly
  `KnownHosts.ForgetLeavesOthersExactly`).
* **A value with a line break or outer space does not read back from a probe's inventory.** The
  pattern for probe names accepts a line break at the end, and it is lost
  (`ProbeEnv.AcceptedNameIsLost`). All keys read as written after every write of a sequence if
  and only if every value that reached the file was stripped and on one line
  (`ProbeEnv.ReadsBackExactly`).
* **A throughput sensor whose lock file cannot be opened runs without the lock**, beside any
  other (`ThroughputLock.WithoutTheLockNothingHolds`). Of two or more processes one measures at
  a time, and their results are apart, in every run if and only if all of them can open it
  (`ThroughputLock.ExactlyWhereTheLockOpens`).
* **Which targets are timed depends on the measurement too**, although it is meant to follow from
  the configuration alone: where no echo target answers, others take their place
  (`LinkQuality.OnlyThatAnswers` gives the results). When that happens is
  `LinkQuality.TimedByConfigurationExactly`, and which configurations are spared
  `LinkQuality.AlwaysTimedAlikeExactly`.
* **A gateway restart loses traffic no run had read** (`TrafficVolume.ARestartLosesTraffic`;
  exactly `TrafficVolume.ShortExactlyByWhatRestartsLost`).

## Model

| member | source | states |
|---|---|---|
| JobService.JobService.RequestCancel | web/backend/app/services/jobs.py:192-209 | refused exactly for a finished job; a queued one is cancelled, any other only asked |
| JobService.JobService.ClaimFrom | web/backend/app/services/jobs.py:251-301 | the claim loop has the effect of the specified scan, and counts the rows it rewrites |
| JobService.JobService.BusyResources | web/backend/app/services/jobs.py:320-328 | exactly the resources under a live lease, with their holders |
| JobService.JobService.TryAcquireLocks | web/backend/app/services/jobs.py:330-376 | the insert loop has the all-or-nothing effect, collisions with expired rows included |
| JobService.JobService.ReleaseLocks | web/backend/app/services/jobs.py:378-384 | all of the job's rows go and no others |
| JobService.JobService.ReapExpiredLocks | web/backend/app/services/jobs.py:405-421 | the expired rows of jobs nobody carries go, and their number is returned |
| JobService.JobService.EndAbandonedJobs | web/backend/app/workers/job_runner.py:404-435 | exactly the running jobs outside `_active` and the grace period are ended, and lose their locks |
| JobService.JobService.SettleInterrupted | web/backend/app/workers/stack_recovery.py:40-152 | every handed-over job that is still open gets the verdict of its exit code and loses its locks |
| JobQueue.ClaimScanFrame | web/backend/app/services/jobs.py:251-301 | a poll changes reasons and the one claim, never a lock row, a resource list or a request to cancel |
| JobQueue.ClaimTakesFirst | web/backend/app/services/jobs.py:251-301 | the first candidate that is queued and free is taken; nothing exactly if there is none, even if the candidates are stale |
| JobQueue.PollTakesOldestRunnable | web/backend/app/services/jobs.py:251-301 | the job taken has the smallest identifier among the queued ones that no other job's live lock blocks |
| JobQueue.PollTakesNothingExactly | web/backend/app/services/jobs.py:265-301 | an empty answer exactly if each of the first twenty is blocked, and with fewer queued, every job |
| JobQueue.BlockingMeansBusy | web/backend/app/services/jobs.py:576-585 | a blocker is named exactly if a declared resource is under another job's live lease, and it is that job |
| JobQueue.SecondPollWritesNothing | web/backend/app/services/jobs.py:251-301 | repeating an empty poll over unchanged locks rewrites no row |
| JobQueue.InsertAllWorks | web/backend/app/services/jobs.py:359-375 | the inserts succeed exactly if no resource has a row, live or expired, and none is declared twice |
| JobQueue.AcquireAllOrNothing | web/backend/app/services/jobs.py:330-376 | a job gets every declared resource for a whole lease or the table is untouched, and when |
| JobQueue.RefusalExactly | web/backend/app/services/jobs.py:330-376 | a refused job is told a job whose live lease stands in its way, and that it lost a race exactly if there is none |
| JobSafety.StepKeeps | web/backend/app/workers/job_runner.py:127-299 | every step that does not reclaim a carried job keeps the invariant of jobs, locks, workers and reaper |
| JobGuarantees.RunnerIsSafe | web/backend/app/workers/job_runner.py:7-15 | in every run with one-step hand-backs: executing jobs share no resource, own every lock they declared even past the lease and are not declared finished, no handler starts twice |
| JobGuarantees.RunnerIsSafeUnlessReclaimed | web/backend/app/workers/job_runner.py:127-173 | the same for every run in which no claim falls into a hand-back |
| JobGuarantees.PollKeepsExactly | web/backend/app/workers/job_runner.py:127-173 | a poll keeps the invariant, one worker per job included, if and only if it does not claim a job still in `_active` |
| JobReclaim.EarlyReclaimBreaksExclusion | web/backend/app/workers/job_runner.py:127-173 | a run that ends with two executing jobs on one resource |
| JobHarm.HarmlessRunsAreSafe | web/backend/app/workers/job_runner.py:7-15 | the promises hold in every run in which no claim takes a job still in `_active` that could start; claims of jobs that never start do no harm |
| JobHarm.ReclaimHarms | web/backend/app/workers/job_runner.py:127-173 | from every claim of a job still in `_active` that can start, a continuation without any claim ends with that job finished and without locks under its handler |
| JobHarm.PollHarmsExactly | web/backend/app/workers/job_runner.py:127-173 | a poll leaves every promise safe in all that may follow without another such claim, if and only if it is none itself |
| JobHarm.RunIsSafeExactly | web/backend/app/workers/job_runner.py:127-299 | for whole runs: safe at each point and in all that may follow without such a claim, if and only if the run has none |
| JobGuarantees.TerminalStays | web/backend/app/services/jobs.py:445-463 | no step changes the status of a finished job |
| JobGuarantees.TerminalForever | web/backend/app/services/jobs.py:192-209 | finished at one point of a run, a job has that status at every later point |
| JobGuarantees.EndedByItsOwnWorker | web/backend/app/workers/job_runner.py:175-299 | a job in `_active` is ended by the worker that carries it, except a cancellation in the middle of a hand-back |
| JobEndings.EndsExactly | web/backend/app/workers/job_runner.py:175-299 | what brings an open job to each of the four ends: its handler's return, error or interruption, an unknown type, the verdict on a hand-over, being found abandoned, or a cancellation in the queue |
| JobEndings.HandlerEndsIt | web/backend/app/workers/job_runner.py:198-280 | a return without failures is a success, with failures a partial one or a failure, seen cancellations and interruptions cancel, an error fails; an interrupted hand-over stays as it is |
| JobEndings.EndedExactly | web/backend/app/workers/job_runner.py:175-299 | in a run a job stands at an end if and only if one of these steps brought it there while it was open |
| JobEndings.SuccessIsEarned | web/backend/app/workers/job_runner.py:198-280 | successful only by such a return, or by exit code 0 of what it was handed to |
| JobEndings.MovesExactly | web/backend/app/workers/job_runner.py:127-173 | between open statuses: a claim of the first free candidate, a hand-over, a refused acquisition, or a claim undone |
| JobEndings.LocksEnd | web/backend/app/workers/job_runner.py:143-165 | the outcome of asking for locks, with the reason and start time it leaves |
| JobEndings.RequestIsRecorded | web/backend/app/services/jobs.py:192-209 | a request to cancel is recorded for running and handed-over jobs alone, and never taken back |
| JobEndings.RowGoesExactly | web/backend/app/services/jobs.py:378-421 | a lock row goes exactly with its worker's release, its age at a reap, or the end of a job nobody carries |
| JobEndings.RowComesExactly | web/backend/app/services/jobs.py:330-376 | a lock row comes exactly for a resource of a job that gets all it declared, for a whole lease |
| JobEndings.ActiveExactly | web/backend/app/workers/job_runner.py:127-173 | a job comes to `_active` by a claim and leaves it when its worker drops it or the process ends |
| JobEndings.ReaperExactly | web/backend/app/workers/job_runner.py:361-383 | listing, renewing, reaping and looking for the abandoned, in this order |
| JobEndings.BooksExactly | web/backend/app/workers/job_runner.py:85-106 | what time, crashes, starts, hand-overs and entered handlers leave in the books |
| JobGuarantees.OnlyCarriedAreRenewed | web/backend/app/workers/job_runner.py:361-383 | a lease grows only by the reaper's renewal of a job it had listed as carried |
| JobGuarantees.PassFreesWhatNobodyCarries | web/backend/app/workers/job_runner.py:361-383 | after a reaper pass that nothing interrupts every expired row is a carried job's, and carried jobs have a full lease |
| JobGuarantees.ReapTakesExpiredExactly | web/backend/app/workers/job_runner.py:361-383 | wherever in a run the reaper reaps, whatever came between: exactly the expired rows go, and none of a job in `_active`, listed or claimed since |
| JobGuarantees.PassEndsWhatNobodyCarries | web/backend/app/workers/job_runner.py:404-435 | such a pass ends every uncarried running job past the grace period and frees its locks |
| JobGuarantees.SweepEndsAbandonedExactly | web/backend/app/workers/job_runner.py:404-435 | wherever in a run abandoned jobs are looked for: exactly those finish and lose their rows, and what runs afterwards is carried by a worker or younger than the grace period |
| JobGuarantees.StartUpLeavesNothingRunning | web/backend/app/workers/job_runner.py:385-402 | after settle and recover no job runs or is handed over, those ended hold no lock, the rest is as it was |
| JobGuarantees.HandedOverVerdict | web/backend/app/workers/stack_recovery.py:65-192 | a handed-over update is successful exactly if its container exited with 0 |
| EnrollmentService.OverlayRuntime.Taken | web/backend/app/infrastructure/overlay.py:438-470 | the peers' addresses, reservations included |
| EnrollmentService.OverlayRuntime.AllocateAddress | web/backend/app/infrastructure/overlay.py:472-494 | the loop finds the allocation, or refuses |
| EnrollmentService.OverlayRuntime.PruneReservations | web/backend/app/services/enrollment.py:190-208 | what is left are the reservations of open invitations, and what went is reported |
| EnrollmentService.OverlayRuntime.Issue | web/backend/app/services/enrollment.py:126-188 | prune, allocate over peers and promises, then invitation and reservation together or neither |
| EnrollmentService.OverlayRuntime.Revoke | web/backend/app/services/enrollment.py:265-272 | a redeemed invitation stays redeemed; the reservation goes |
| EnrollmentService.OverlayRuntime.Redeem | web/backend/app/workers/handlers/probe_enrollment.py:53-107 | works exactly while the token resolves; a key other than the reserved one is refused |
| EnrollmentService.OverlayRuntime.Attach | web/backend/app/services/overlay.py:193-241 | an attached probe keeps its address, a new one gets an allocated one |
| EnrollmentService.TakenAddresses | web/backend/app/infrastructure/overlay.py:438-470 | a reservation an enrolled probe outranks still counts as taken |
| OverlaySafety.AllocationIsLeastFree | web/backend/app/infrastructure/overlay.py:472-494 | the least free index from 256 up, never network, hub or broadcast; refused exactly if none is free |
| OverlaySafety.SubnetLayout | web/backend/app/infrastructure/overlay.py:82-135 | accepted are 4 to 2^24 addresses; network, hub, hosts and broadcast address in their places |
| OverlaySafety.NarrowSubnetsHoldNoPeer | web/backend/app/infrastructure/overlay.py:121-135 | allocation always refuses exactly for the accepted prefixes from /24 on |
| OverlaySafety.StepKeeps | web/backend/app/services/enrollment.py:126-315 | every step that does not collide keeps peers, reservations and promises apart |
| OverlaySafety.AttachKeepsExactly | web/backend/app/services/overlay.py:193-241 | attaching keeps them apart if and only if the address was not promised to an open invitation |
| OverlaySafety.RunStaysApartExactly | web/backend/app/services/overlay.py:193-241 | throughout a run peers, reservations and promises are apart if and only if no attachment hands out a promised address |
| OverlaySafety.CollisionHurtsExactly | web/backend/app/services/overlay.py:193-241 | after a collision and the redemption of the invitation the hub is sound if and only if the invitation was the attached account's |
| OverlaySafety.TunnelInvitationsNeverCollide | web/backend/app/services/enrollment.py:161-188 | without an open address-only invitation no attachment collides |
| OverlaySafety.HubStaysSound | web/backend/app/infrastructure/overlay.py:498-534 | in every run without such an attachment the hub's peers have distinct, usable addresses |
| OverlaySafety.HubStaysSoundUnlessCollides | web/backend/app/infrastructure/overlay.py:498-534 | the same for every run in which no attachment hands out a promised address |
| OverlaySafety.AttachBreaksTheHub | web/backend/app/services/overlay.py:216 | a run that renders two peers with one address |
| OverlaySafety.RedeemedAtMostOnce | web/backend/app/services/enrollment.py:305-315 | in every run an invitation is redeemed at most once, and never after a revocation |
| OverlaySafety.ClosedForever | web/backend/app/services/enrollment.py:282-303 | redeemed, revoked or expired once, an invitation resolves at no later point |
| OverlaySafety.ReservationStays | web/backend/app/infrastructure/overlay.py:366-388 | an open tunnel invitation keeps one unchanged account, key and address |
| OverlaySafety.PruneLeavesOpenTunnels | web/backend/app/infrastructure/overlay.py:416-434 | after a prune the reservations are exactly those of the open tunnel invitations |
| InvitationLaws.IssueExactly | web/backend/app/services/enrollment.py:126-188 | an invitation is made exactly if an address is free for it or it needs none, with its account, time, address and reservation |
| InvitationLaws.OpenForItsTime | web/backend/app/services/enrollment.py:282-303 | left alone, it is open for exactly the time it was issued for, over every run |
| InvitationLaws.OnlyTheIssuedKey | web/backend/app/workers/handlers/probe_enrollment.py:80-107 | over every run a tunnel invitation enrols its account at its address exactly under the key it was issued with; any other key changes neither peers nor reservations |
| InvitationLaws.RedeemExactly | web/backend/app/workers/handlers/probe_enrollment.py:53-107 | what a redemption does to peers, reservations and the invitation, in each case |
| InvitationLaws.RevokeExactly | web/backend/app/services/enrollment.py:265-272 | a revoked invitation is not open and has no reservation, a redeemed one stays redeemed, the rest stays |
| InvitationLaws.AttachExactly | web/backend/app/services/overlay.py:193-241 | the address kept, or the lowest unheld one; refused exactly if the overlay is off or none is left |
| InvitationLaws.DetachExactly | web/backend/app/services/overlay.py:289-310 | that peer goes and nothing else changes |
| InvitationLaws.HubPeersExactly | web/backend/app/infrastructure/overlay.py:438-470 | the hub lists the enrolled probes, and reservations on addresses none of them has |
| InvitationLaws.ClockAndSwitch | web/backend/app/services/overlay.py:193-310 | no operation but waiting and switching moves clock or switch |
| Versions.VersionMeaning | web/backend/app/domain/reconciliation.py:291-303 | at least means: numeric, and equal or greater at the first number that differs, missing ones being zero |
| Versions.SelfSatisfies | web/backend/app/domain/reconciliation.py:291-303 | a version satisfies itself as a minimum exactly if it is numeric |
| Versions.AtLeastIsTransitive | web/backend/app/domain/reconciliation.py:291-303 | the comparison can be chained, whatever the numbers of parts |
| Versions.DottedAtLeast | web/backend/app/domain/reconciliation.py:291-303 | versions written as dotted numbers compare as their numbers |
| Versions.TenIsAfterNine | web/backend/app/domain/reconciliation.py:291-303 | 3.10 is at least 3.9 and not the other way round |
| Versions.SignsRead | web/backend/app/domain/reconciliation.py:291-303 | parts may carry a sign |
| Versions.ReadsExactly | web/backend/app/domain/reconciliation.py:291-303 | what is a number part and what is not |
| Placeholders.Fill | web/backend/app/domain/probe_config.py:134-136 | the loop fills one placeholder after another, each over the whole text |
| Placeholders.FilledApart | web/backend/app/domain/probe_config.py:134-136 | what a line or a blank separates is filled apart: no placeholder reaches across, whatever the values hold |
| Placeholders.FillingKeepsUnmarked | web/backend/app/domain/probe_config.py:134-136 | a text without a placeholder comes through unchanged |
| ProbeConfig.RenderProbeConfig | web/backend/app/domain/probe_config.py:112-143 | values checked, placeholders filled in order, and a text with one left over refused |
| ProbeConfig.CompleteExactly | web/backend/app/domain/probe_config.py:54-77 | the rendering asks for exactly these values, each against its pattern |
| ProbeConfig.TokensMatch | web/backend/app/domain/probe_config.py:22-23 | names, keys and accounts are what their regular expressions match, the end before a last line break included |
| ProbeConfig.HostMatches | web/backend/app/domain/probe_config.py:24 | likewise the server's address |
| ProbeConfig.IdMatches | web/backend/app/domain/probe_config.py:19-21 | likewise the identifier, five groups and four hyphens |
| Placeholders.MarkAtExactly | web/backend/app/domain/probe_config.py:138 | what is searched for as left over: two at signs on either side of a key that is not empty |
| Placeholders.KeyChars | web/backend/app/domain/probe_config.py:138 | the characters of a key |
| ProbeConfig.AcceptedExactly | web/backend/app/domain/probe_config.py:112-143 | a name that fits the pattern is accepted if and only if no placeholder is left once the later values have gone into it and into the rest |
| ProbeConfig.FilledNameIsRead | libexec/prtg-nats-probe-helper:286-311 | the probe reads the name as the later values have left it |
| ProbeConfig.ReadsNoName | libexec/prtg-nats-probe-helper:286-311 | two names, none, or a control character in it read as absent |
| ProbeConfig.QuotesComeOff | libexec/prtg-nats-probe-helper:286-311 | one quote at each end is taken off |
| ProbeConfig.OneOfTwoComesOff | libexec/prtg-nats-probe-helper:286-311 | of two quotes only the outer one |
| ProbeConfig.OverrideWins | web/backend/app/workers/handlers/probe_lifecycle.py:140-143 | the server's address is the probe's own one where it has one, the site's elsewhere |
| ProbeConfig.ReportedAsGiven | web/backend/app/domain/probe_config.py:112-143 | of an accepted configuration the probe reads back the name as given if and only if the name holds no placeholder, no line break at its end, and is no word for an absent value |
| Reconciliation.Compare | web/backend/app/domain/reconciliation.py:109-233 | the two loops build the specified rows |
| Reconciliation.Find | web/backend/app/domain/reconciliation.py:320-452 | the findings loops build the specified list, none for an unreachable probe |
| Reconciliation.Build | web/backend/app/domain/reconciliation.py:570-646 | the plan loop builds the specified plan |
| ReconcilePlan.RowsInNameOrder | web/backend/app/domain/reconciliation.py:109-233 | every wanted and every unmanaged sensor has its row, in name order, rows of one name in their order before |
| ReconcilePlan.PlanExactly | web/backend/app/domain/reconciliation.py:320-646 | through comparison, findings and two sorts, each action stands in the plan exactly as often as it is due |
| ReconcilePlan.StatusExactly | web/backend/app/domain/reconciliation.py:235-288 | absent, current, outdated and drifted, each told from row, version, digests and tool |
| ReconcilePlan.ChangedScriptDrifts | web/backend/app/domain/reconciliation.py:250-251 | a row whose script has other bytes is drifted |
| ReconcilePlan.PlanInOrder | web/backend/app/domain/reconciliation.py:570-646 | restart, certificate, configuration, deployments |
| ReconcilePlan.DeploysExactly | web/backend/app/domain/reconciliation.py:109-288 | deployed are exactly the wanted sensors whose row, version, digests or tool is not as wanted, never an unmanaged one |
| ReconcilePlan.EmptyPlanExactly | web/backend/app/domain/reconciliation.py:320-646 | the plan is empty if and only if the probe does not answer or service, certificate, name and every wanted sensor's row are as wanted |
| ReconcileFindings.RowIsListedExactly | web/backend/app/domain/reconciliation.py:109-233 | a row for each wish with its status and for each sensor nobody asked for, and no other |
| StableSort.TextBeforeExactly | web/backend/app/domain/reconciliation.py:233 | the order of names: the lower character at the first difference, or the shorter one |
| ReconcileFindings.FoundExactly | web/backend/app/domain/reconciliation.py:320-452 | each of the ten kinds of finding is raised exactly for what is wrong in that way, none for a probe that does not answer |
| ReconcileFindings.FindingsInOrder | web/backend/app/domain/reconciliation.py:320-452 | what keeps a probe from working first, what is only of note last |
| ReconcileRun.RunPlan | web/backend/app/workers/handlers/probe_lifecycle.py:307-337 | the loop over the plan has the specified effect and ends at a cancellation or where a step is refused |
| ReconcileRun.ConfiguresExactly | web/backend/app/workers/handlers/probe_lifecycle.py:69-223 | refused exactly without package, text or start; done, the service runs under the name read from the text |
| ReconcileRun.InstallsExactly | web/backend/app/workers/handlers/probe_lifecycle.py:307-337 | a certificate is installed exactly if its file is there and the probe takes it |
| ReconcileRun.DeploysWhatIsShipped | web/backend/app/workers/handlers/deploy_sensor.py:142-358 | when a rollout gets through, and the row it leaves, field by field |
| ReconcileRun.ConvergesExactly | web/backend/app/workers/handlers/probe_lifecycle.py:259-343 | the plan after the run is empty if and only if what is due on the probe can be carried out and satisfies what is desired, and a deployment can satisfy every sensor it touches |
| ReconcileRun.NameSettlesExactly | web/backend/app/domain/probe_config.py:112-143 | a desired name settles if and only if it holds no placeholder and does not end in a line break, once it is accepted and not read as absent |
| ReconcileRun.ProbeIsPutRightExactly | web/backend/app/workers/handlers/probe_lifecycle.py:92-223 | after a run the service runs and certificate and name are right if and only if what was due of them can be carried out with that result, however far the rollouts got |
| ReconcileRun.RefusedConfigurationStops | web/backend/app/workers/handlers/probe_lifecycle.py:69-143 | a due configuration that the missing package, a value or the probe refuses ends the run: the probe stays as it was |
| ReconcileRun.OtherRowsStay | web/backend/app/workers/handlers/deploy_sensor.py:142-358 | a row changes only where that sensor's rollout was planned and could succeed |
| ReconcileRun.UnmanagedUntouched | web/backend/app/domain/reconciliation.py:182-231 | a sensor nobody asked for comes through every run as it was |
| ReconcileRun.PinIsNeverReached | web/backend/app/workers/handlers/probe_lifecycle.py:325-336 | a pinned sensor for which plan and run repeat for ever |
| ReconcileRun.BlankInTheNameIsRefused | web/backend/app/domain/probe_config.py:19-77 | the desired name "My Probe", no sensor touched: planned for and refused by every run |
| ReconcileRun.MarkInTheNameNeverSticks | web/backend/app/domain/probe_config.py:112-143 | the desired name "p@@NATS_USER@@": accepted, written as "pp", and planned for again |
| ReconcileRun.UnknownMarkIsRefused | web/backend/app/domain/probe_config.py:112-143 | the desired name "p@@X@@" fits the pattern and is refused by every run |
| ReconcileRun.LineBreakNeverSticks | web/backend/app/domain/probe_config.py:19-77 | a desired name that is accepted, written and planned for again |
| ReconcileRun.PreviewAgainstJob | web/backend/app/services/probes.py:215-292 | the preview is the job's plan and the deployments of sensors whose tool alone is wrong, exactly |
| ReconcileRun.PreviewPromisesMore | web/backend/app/workers/handlers/probe_lifecycle.py:284-297 | a preview with a deployment that the job does not plan |
| ThroughputLock.LockAlways | sensors/iperf-throughput/script/iperf-throughput.py:940-969 | in every run, kills included, the lock is held by exactly the process that believes so |
| ThroughputLock.MeasuresExactlyWithoutAFreshResult | sensors/iperf-throughput/script/iperf-throughput.py:875-909 | a run shows the cached result, before the lock and after it, exactly if that is neither older than its minimum age nor in the future |
| ThroughputLock.LockTakenExactly | sensors/iperf-throughput/script/iperf-throughput.py:940-969 | a run ends at the lock exactly if another holds it, takes it if it is free, and goes on without if the file does not open |
| ThroughputLock.EndsExactly | sensors/iperf-throughput/script/iperf-throughput.py:1304-1335 | what a stamp, a failure, a stored result and the end of a run change |
| ThroughputLock.OutOfTurnChangesNothing | sensors/iperf-throughput/script/iperf-throughput.py:1284-1335 | a step out of its turn does not happen |
| ThroughputLock.BeginsExactly | sensors/iperf-throughput/script/iperf-throughput.py:1284-1304 | a run begins without the lock, whatever else runs |
| ThroughputLock.OneMeasuresAtATime | sensors/iperf-throughput/script/iperf-throughput.py:1304-1335 | two processes measure at once only if one of them could not open the lock file |
| ThroughputLock.StepKeeps | sensors/internet-speed/script/internet-speed.py:1080-1112 | for each cache file, every step that does not store in it without the lock keeps lock, caches and measurements consistent |
| ThroughputLock.ResultsAreApart | sensors/iperf-throughput/script/iperf-throughput.py:1297-1335 | consecutive results of one configuration, stored under the lock, are further apart than the later run's minimum age, whatever other sensors do without it |
| ThroughputLock.ExactlyWhereTheLockOpens | sensors/iperf-throughput/script/iperf-throughput.py:940-969 | of two or more processes one measures at a time in every run if and only if all can open the lock file, and likewise for results being apart |
| ThroughputLock.WithoutTheLockNothingHolds | sensors/iperf-throughput/script/iperf-throughput.py:947-953 | for any process that cannot open the lock file and any other: runs with two measurements at once and two results of one moment |
| TrafficVolume.VolumeIsTheSum | sensors/aruba-uplink/script/aruba-uplink.py:695-735 | the volume is the sum of increases, or whole readings after drops, and with what restarts lost it is the true traffic |
| TrafficVolume.ShortExactlyByWhatRestartsLost | sensors/aruba-uplink/script/aruba-uplink.py:719-735 | the volume equals the true traffic if and only if restarts lost nothing, and what one loses |
| TrafficVolume.ARestartLosesTraffic | sensors/aruba-uplink/script/aruba-uplink.py:719-725 | fifty bytes before a restart that no run reports |
| TrafficVolume.VolumeNeverDecreases | sensors/aruba-uplink/script/aruba-uplink.py:695-735 | within a period the volume never goes back, across restarts |
| TrafficVolume.ExactWithoutRestarts | sensors/aruba-uplink/script/aruba-uplink.py:695-735 | without a restart the volume is the traffic since the period's first reading |
| TrafficVolume.SkippedRunsDoNotMatter | sensors/aruba-uplink/script/aruba-uplink.py:695-735 | then it does not depend on which runs took place |
| TrafficVolume.ARunBeforeTheRestartMatters | sensors/aruba-uplink/script/aruba-uplink.py:719-725 | before a restart a run saves exactly what was counted since the one before |
| BillingPeriod.PeriodsTile | sensors/aruba-uplink/script/aruba-uplink.py:678-692 | a date belongs to a period if and only if it lies between its start and the next month's |
| BillingPeriod.EveryDateHasAPeriod | sensors/aruba-uplink/script/aruba-uplink.py:668-692 | every Gregorian date has exactly one start, clamped to its month, save before the calendar's first one |
| BillingPeriod.StartIsTheLatest | sensors/aruba-uplink/script/aruba-uplink.py:668-692 | a period begins on the latest day up to today that is the billing day or, where its month lacks that, the last of the month |
| BillingPeriod.ThirtyFirst | sensors/aruba-uplink/script/aruba-uplink.py:668-692 | billing day 31 at the end of January and in February 2024 |
| BillingPeriod.NoPeriodExactly | sensors/aruba-uplink/script/aruba-uplink.py:678-692 | only the plain counter has no period |
| BillingPeriod.MonthLengths | sensors/aruba-uplink/script/aruba-uplink.py:668-676 | the length of every month and of the year |
| BillingPeriod.FourCenturies | sensors/aruba-uplink/script/aruba-uplink.py:668-676 | 146097 days in four centuries |
| BillingPeriod.StartIsMonotone | sensors/aruba-uplink/script/aruba-uplink.py:678-692 | a later date never has an earlier start |
| BillingPeriod.ChangesOncePerMonth | sensors/aruba-uplink/script/aruba-uplink.py:668-692 | overnight the start changes if and only if the new day is its month's billing day |
| BillingPeriod.OneChangePerMonth | sensors/aruba-uplink/script/aruba-uplink.py:668-692 | over any number of days as many changes as months between the starts |
| LinkQuality.IndexNeverRises | sensors/link-quality/script/link-quality.py:446-464 | more latency, jitter or loss never gives a better index, across the kink and the rounding |
| LinkQuality.IndexRange | sensors/link-quality/script/link-quality.py:446-464 | 0 to 100, and 93 at most for what can be measured |
| LinkQuality.WhatCostsWhat | sensors/link-quality/script/link-quality.py:446-464 | what latency, jitter and loss cost, below and above the kink |
| LinkQuality.IndexIsNearest | sensors/link-quality/script/link-quality.py:446-464 | the nearest whole number, a half to the even one, within the scale |
| LinkQuality.MeanExactly | sensors/link-quality/script/link-quality.py:505-514 | the mean of equal times is that time, and moves by a time's share |
| LinkQuality.OneMoreTarget | sensors/link-quality/script/link-quality.py:505-522 | what one more timed target brings to the means and the loss |
| LinkQuality.RatedExactly | sensors/link-quality/script/link-quality.py:507-528 | 0 without a latency, else the index of the means and the loss |
| LinkQuality.OneTargetIsRated | sensors/link-quality/script/link-quality.py:467-528 | a single target is rated by its own numbers, none at all by 0 |
| LinkQuality.CollectTargets | sensors/link-quality/script/link-quality.py:303-320 | the loops accept and number the targets, or refuse: too many, one malformed, or none |
| LinkQuality.AcceptedExactly | sensors/link-quality/script/link-quality.py:303-320 | accepted exactly if every target was parsed, at most six outside and four inside, and one at all |
| LinkQuality.PlacedChannels | sensors/link-quality/script/link-quality.py:303-320 | the i-th target of a class stands at its base plus three times i |
| LinkQuality.ChannelsFollowTheConfiguration | sensors/link-quality/script/link-quality.py:531-630 | which channels a report has follows from the targets alone, never from results |
| LinkQuality.ChannelsAreDistinct | sensors/link-quality/script/link-quality.py:54-63 | in every accepted configuration, whatever the results, the channel numbers of a report ascend, so that no two are the same |
| LinkQuality.MergedExactly | sensors/link-quality/script/link-quality.py:531-554 | every target has the last result of its name, or the substitute for none |
| LinkQuality.ChannelsOfTarget | sensors/link-quality/script/link-quality.py:557-580 | loss, latency and jitter of a target in its three channels, 0 where it has no time |
| LinkQuality.AppendingMovesNothing | sensors/link-quality/script/link-quality.py:54-63 | a target added at the end of a class leaves every other its channels |
| LinkQuality.DeadTargetsDoNotCount | sensors/link-quality/script/link-quality.py:467-528 | a target that does not answer has no part in the index, wherever it stands |
| LinkQuality.TimedByConfigurationExactly | sensors/link-quality/script/link-quality.py:467-505 | the kind of target timed is the configured one, unless echo targets are configured, none answers and another target does |
| LinkQuality.AlwaysTimedAlikeExactly | sensors/link-quality/script/link-quality.py:467-505 | a configuration is always timed alike if and only if it does not have an echo target and, under a name of its own, another one |
| LinkQuality.OnlyThatAnswers | sensors/link-quality/script/link-quality.py:467-505 | for every such configuration, results for which the other kind is timed |
| KnownHosts.Store.Read | web/backend/app/infrastructure/known_hosts.py:88-104 | the keys of all matching lines, or none at all where a hashed field is incomplete |
| KnownHosts.Store.Pin | web/backend/app/infrastructure/known_hosts.py:114-184 | refusal or addition, with the whole new file |
| KnownHosts.Store.Forget | web/backend/app/infrastructure/known_hosts.py:187-218 | the lines naming the host go, and their number is returned |
| KnownHosts.PinThenRead | web/backend/app/infrastructure/known_hosts.py:114-184 | after a pin the blobs read back are exactly those offered, a new host's keys in order |
| KnownHosts.PinningAppends | web/backend/app/infrastructure/known_hosts.py:174-178 | the new text is the old one, a line break where needed, and the new lines: no entry is glued to an old line |
| KnownHosts.RefusedExactly | web/backend/app/infrastructure/known_hosts.py:114-184 | accepted if and only if something is offered and every pinned blob is among it; a refusal writes nothing |
| KnownHosts.SameKeysExactly | web/backend/app/infrastructure/known_hosts.py:151-168 | the keys read back are those offered if and only if the algorithms agree |
| KnownHosts.AlgorithmIsNotCompared | web/backend/app/infrastructure/known_hosts.py:151-168 | a pinned blob offered under another algorithm: accepted, nothing written, and not read back as offered |
| KnownHosts.PinTwiceAddsNothing | web/backend/app/infrastructure/known_hosts.py:169-174 | pinning the same keys again leaves the file as it is |
| KnownHosts.ForgetThenRead | web/backend/app/infrastructure/known_hosts.py:187-218 | a forgotten host has no keys |
| KnownHosts.ForgetKeepsTheRest | web/backend/app/infrastructure/known_hosts.py:187-218 | the lines that do not name the host stay in their order, each with its line break |
| KnownHosts.ABrokenLineStopsAll | web/backend/app/infrastructure/known_hosts.py:88-218 | one incomplete hashed field stops every pin and forget and leaves the file |
| KnownHosts.ForgetLeavesOthersExactly | web/backend/app/infrastructure/known_hosts.py:187-218 | another host reads the same if and only if no line names both |
| KnownHosts.ASharedLineIsLost | web/backend/app/infrastructure/known_hosts.py:187-218 | a plain line with two names, lost for the second by forgetting the first |
| KnownHosts.OthersLeaveItAlone | web/backend/app/infrastructure/known_hosts.py:114-218 | over any pins and forgets of other hosts a host reads the same keys, as long as no host forgotten shares a line with it |
| KnownHosts.OneHostPerLineIsEnough | web/backend/app/infrastructure/known_hosts.py:114-218 | from a file in which each line names one host that is every run |
| EnvFile.LinesOfText | web/backend/app/infrastructure/runtime_files.py:57-65 | what is written line by line is read line by line |
| EnvFile.LinesOfTame | web/backend/app/infrastructure/runtime_files.py:57-65 | values with line breaks at the end are read as well, as those lines and blank ones |
| EnvFile.LinesEndAtBreaks | web/backend/app/infrastructure/runtime_files.py:57-65 | a line ends at any break, carriage return and line feed being one; the last needs none |
| EnvFile.SpacesAre | web/backend/app/infrastructure/runtime_files.py:57-65 | what counts as space and as a line break |
| EnvFile.ReadValuesAreClean | web/backend/app/infrastructure/runtime_files.py:41-65 | nothing read back holds a line break or outer space |
| EnvFile.OverriddenFinds | web/backend/app/infrastructure/runtime_files.py:589-609 | a partial update is a map override |
| EnvFile.OverriddenIsUnique | web/backend/app/infrastructure/runtime_files.py:589-609 | it keeps the keys distinct |
| ProbeEnv.InventoryFile.ReadValues | web/backend/app/infrastructure/runtime_files.py:41-65 | the reading loop gives every key its last value |
| ProbeEnv.InventoryFile.WriteInventory | web/backend/app/infrastructure/runtime_files.py:487-542 | the whole new text, carried keys included |
| ProbeEnv.InventoryFile.UpdateValues | web/backend/app/infrastructure/runtime_files.py:589-609 | the rewriting loop has the specified effect; a missing file is refused |
| ProbeEnv.RewriteKeeps | web/backend/app/infrastructure/runtime_files.py:487-542 | a full rewrite sets its seven keys and keeps the five others as they read, whatever line breaks stand at the end of values |
| ProbeEnv.CarriedTogether | web/backend/app/infrastructure/runtime_files.py:519-542 | the five other keys are written all together, or none where none is set |
| ProbeEnv.EveryKeyReadsItsLastWriter | web/backend/app/infrastructure/runtime_files.py:337-609 | over any writes every key reads back as its own last writer left it, stripped, line breaks at the end of values included |
| ProbeEnv.KeysStayUnique | web/backend/app/infrastructure/runtime_files.py:487-609 | no key stands in a reachable file twice, blank lines aside |
| ProbeEnv.ReadsBackExactly | web/backend/app/infrastructure/runtime_files.py:41-609 | all twelve keys read exactly as written after every write of a sequence if and only if every value that reached the file is stripped and on one line |
| ProbeEnv.RecordFollowsTheWrites | web/backend/app/infrastructure/runtime_files.py:337-364 | the record read of a probe follows its writes: each sets its own fields and no other |
| ProbeEnv.OrNoneExactly | web/backend/app/infrastructure/runtime_files.py:337-364 | an empty value is read as none, any other as itself |
| ProbeEnv.AcceptedNameIsLost | web/backend/app/infrastructure/runtime_files.py:487-542 | a name with a line break at its end is accepted, written, and never read back, whatever came before |
| ProbeEnv.NoInventoryNoUpdate | web/backend/app/infrastructure/runtime_files.py:594-596 | partial writes alone never make a file |
| ShellQuoting.QuotingRoundTrips | web/backend/app/infrastructure/ssh_provisioning.py:286-288 | a shell splits the quoted command into exactly the words it was made of, whatever they hold |
| ShellQuoting.QuotingIsInjective | web/backend/app/infrastructure/ssh_provisioning.py:252 | different word lists never make one command line |
| ShellQuoting.InvocationRunsTheCommand | web/backend/app/infrastructure/ssh_provisioning.py:239-272 | with and without sudo, the words that run are the command's own with the stage put in |
| ShellQuoting.StageIsPutIn | web/backend/app/infrastructure/ssh_provisioning.py:252 | the staging directory stands wherever a word held the marker, the rest of the words as it was |
| ShellQuoting.UnquotedWordsAreLost | web/backend/app/infrastructure/ssh_provisioning.py:286-288 | without quoting a blank splits, an operator ends the command and a quote stays open |
| ShellQuoting.QuotesAndBackslashesGo | web/backend/app/infrastructure/ssh_provisioning.py:286-288 | without quoting double quotes and backslashes are taken away by the shell |
| EventBroadcaster.Broadcaster.Publish | web/backend/app/services/events.py:38-48 | every queue of the topic gets the event, a full one gives up its oldest, no other queue changes |
| EventBroadcaster.Broadcaster.Register | web/backend/app/services/events.py:50-62 | a new, empty queue joins the topic |
| EventBroadcaster.Broadcaster.Unregister | web/backend/app/services/events.py:64-70 | that queue leaves; a topic without one is dropped |
| EventBroadcaster.QueueIsASuffix | web/backend/app/services/events.py:38-48 | an unread queue holds the last 256 events published since it registered |
| JobStream.LogIsNumbered | web/backend/app/services/jobs.py:547-554 | in every run a job's lines are numbered 1 to n |
| JobStream.LogIsWhatWasLogged | web/backend/app/services/jobs.py:497-554 | the stored lines are what was logged, in order |
| JobStream.PublishesInOrder | web/backend/app/services/jobs.py:497-574 | what is stored or announced is handed out in that order, to the queue that listens |
| JobStream.ReadsThenTakes | web/backend/app/api/v1/routes/jobs.py:104-195 | pages until one is not full, then the queue event by event |
| JobStream.StartsWhereTheClientStopped | web/backend/app/api/v1/routes/jobs.py:104-146 | a stream starts behind the number its client names |
| JobStream.PageMeaning | web/backend/app/services/jobs.py:239-249 | a page holds exactly the lowest numbers above the cursor |
| JobStream.ReadBacklog | web/backend/app/api/v1/routes/jobs.py:341-362 | page by page the history is rebuilt once and without a gap |
| JobStream.StepKeeps | web/backend/app/api/v1/routes/jobs.py:104-195 | every step of writer, broadcaster and reader keeps queue, cursor and what was sent consistent |
| JobStream.NoLineTwice | web/backend/app/api/v1/routes/jobs.py:147-195 | the client gets lines of the log, in order, each once, and none it had |
| JobStream.NoLineLost | web/backend/app/api/v1/routes/jobs.py:104-195 | a line is neither sent nor on its way if and only if the queue gave it up after the history was read |
| JobStream.WaitingMeaning | web/backend/app/api/v1/routes/jobs.py:104-195 | a line is on its way exactly if it stands in the reader's queue or is stored and not published |
| JobStream.NothingLostWithoutOverflow | web/backend/app/api/v1/routes/jobs.py:104-195 | registering before reading loses nothing unless the queue overflows |
| SignIn.User.Authenticate | web/backend/app/services/auth.py:180-228 | outcome and new counters, a locked account being left as it is |
| SignIn.User.RegisterFailure | web/backend/app/services/auth.py:230-249 | one more failure, and the lock that goes with it |
| SignIn.SignsInExactly | web/backend/app/services/auth.py:180-228 | signed in is the right password to an account neither locked nor disabled, and only that clears the counters |
| SignIn.RefusedExactly | web/backend/app/services/auth.py:212-249 | the wrong password to an unlocked account counts and locks it from the configured number on |
| SignIn.LockoutDoubles | web/backend/app/services/auth.py:230-249 | the base time, doubled with each further failure up to the longest |
| SignIn.NobodySignsInWhileOff | web/backend/app/services/auth.py:220-221 | over every run nobody signs in between an account's being switched off and on |
| SignIn.FailuresTakeTheirTime | web/backend/app/services/auth.py:180-249 | in every run failures in a row span at least the locks between them |
| SignIn.DefaultLockSum | web/backend/app/core/config.py:95-97 | with the default settings that is 1275 + 900 (n - 13) seconds from the thirteenth on |
| SignIn.TheBoundIsReached | web/backend/app/services/auth.py:230-249 | trying again the moment each lock ends takes exactly that long |
| SignIn.GivenOutExactly | web/backend/app/services/auth.py:276-297 | a session is given out exactly if it is live and its user active, and what asking for it changes |
| SignIn.DeadForever | web/backend/app/services/auth.py:276-297 | a session once refused to an active user is never given out again |

## Left out

Assumptions of the models:

- The job protocol is that of one process. Each service method, the claim with the entry into `_active`, and each abandoned-jobs pass is one step; finer interleavings of the pass (web/backend/app/workers/job_runner.py:413 works on rows read before) are not modelled.
- The reaper's sweep over expired rows is taken to come within one lease of its list of carried jobs.
- `cancelSeen` is whether the worker's copy of a job row shows the request to cancel; it is any value, because that copy is not refreshed.
- A handler is any sequence of hand-overs that ends in return, error or interruption. Steps, progress and step lists (web/backend/app/services/jobs.py:465-495), secrets and log text are not part of the job tables.
- Resources of a job may repeat; its inserts then collide with themselves, as `JobQueue.InsertAllWorks` says.
- The overlay's subnet is fixed, the clock does not go back, and a redemption with the inventory write it starts is one step. iperf invitations, the hub's file text and the failures of the redeem job are not modelled.
- Known hosts are modelled on lines whose fields are decoded. A missing file reads as an empty one. `forget` looks for `#` before stripping and `read` after it; that differs only for a host whose name begins with `#`, and is not modelled.
- The traffic model takes the state file to be written whenever a run reports, and the throughput model takes a cache that exists to be readable.

Parts of the modelled files:

- EnrollmentService.OverlayRuntime.Issue: does not check for another open invitation of the account; that check is the route's (web/backend/app/api/v1/routes/enrollment.py:346-357), and the runs here are those with and without it.
- Reconciliation.Find: raises each finding with kind and object; the texts of `expected` and `actual` and the button keys are not modelled, and no decision depends on them.
- ReconcileRun.RunPlan: what the probe itself turns down - a configuration that does not come up, a certificate, a self-test - is a parameter of the run and does not change in its course; a transaction that fails is one step that changes nothing.
- ReconcileRun.ConvergesExactly: is about runs that are not cancelled, and takes the sensor list the probe reports to be available; without it the job plans against an empty list.
- ProbeConfig.ReportedAsGiven: is about templates that give the name on one line of its own, as `config/mpprobe-config.yaml.template` does, with nothing around it that reads as a name. The rendering itself is modelled for every template.
- ProbeConfig.FilledNameIsRead: the probe's `awk` is taken to see space as Python does, and its answer to come over as it was sent; both differ outside ASCII alone, which only a password could bring in.
- ProbeEnv.RecordFollowsTheWrites: keeps the port as text; the defaults for a file without an account or a port, and the two lists beside it, are not modelled.
- Versions.VersionMeaning: number parts are decimal digits with an optional sign; underscores, blanks and digits of other scripts, which `int` also reads, are not modelled.
- LinkQuality.IndexNeverRises: is on real numbers, floating point rounding of the intermediate sums is not modelled.
- LinkQuality.CollectTargets: starts from parsed targets; the parser of one target's text is not modelled.
- BillingPeriod.EveryDateHasAPeriod: dates before the first billing date of year 1 raise in the source and have no period here.
- ShellQuoting.InvocationRunsTheCommand: covers quoting alone; characters no command line can hold, such as NUL, are not excluded.
- ProbeEnv.EveryKeyReadsItsLastWriter: excludes values with text behind their first line break, as do `ProbeEnv.KeysStayUnique` and `ProbeEnv.RewriteKeeps`; such a value writes further lines of its own.
- JobStream.NoLineLost: takes one writer per job, and does not model the end of a stream at a terminal status or keepalives.
- SignIn.FailuresTakeTheirTime: takes an attempt as one step; requests at the same time may each read the counter before the other commits, and failures are then lost. Of the sign-in the account's counters are modelled; password hashing, attempt records and the session cookie are not modelled.

Not modelled at all:

- SSH, Docker, NATS, HTTP and git traffic, certificates, key generation and the helper's signatures.
- Scraping of device output, iperf3 reports, argument parsing, redaction, dashboards, roles, settings and the frontend.
- `same_server`, the overlay's mode switch and the sidecar lists of sensors and endpoints, which are short lookups.
- File modes, ownership checks and fsync; replacing a file is one atomic write.
