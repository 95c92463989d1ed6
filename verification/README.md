# nudo, verified

A model of the parts of nudo whose correctness is not visible from any one function, and proofs of what
they promise. `dafny verify dfyconfig.toml` checks everything.

## What is modelled

**The self-upgrade.** Three actors share one directory: the process that upgrades itself, the boot guard
that precedes every start by the service manager, and the newly started process that reconciles the
journal. `Protocol` is the transition system. Every file operation is one step; a process can stop between
two of them or inside one, after the rename and before the sync; and each operation may succeed, fail
without effect, or fail after its effect. What was not synced stays undecided: a power loss brings back any
earlier state of the link, the journal and the counter since the directory was last synced, and may take
away any release directory whose own entry was not synced.

Runs come in regimes, which are the hypotheses of the design made explicit:

- `Careful`: anything may fail and binaries may report anything, but no upgrade starts over a release that
  a start could still need. `Safety` holds over all its runs, and `CarefulIsExact` says that this one check
  is what safety amounts to: a step may be taken just when everything that can follow it is safe.
- `Tolerant`: the code with the check it has, that the version is newer than the running one. No failure
  strands an upgrade, no binary reports an older version, and no upgrade starts over a release that only an
  unsynced older view needs. Its runs are careful (`TolerantIsCareful`), and it is exact in the same sense
  (`TolerantIsExact`).
- `Reliable`: a binary under `releases/v` reports version `v`, and a file operation succeeds or the process
  or the machine stops. Its runs are tolerant (`ReliableIsTolerant`), so the code as it is is safe; and here
  the journal says which release is current, and a release that never confirms has its number of starts.
- `Ordered`: honest binaries, and a confirmation is recorded durably or not at all. The confirmed versions
  increase, and `ConfirmMustSettle` says that nothing less will do.

In the first three a power loss keeps the releases it leaves needed. `PowerLossSparesExactly` says when any
power loss does: exactly when no release that a start could need has an unsynced entry. In all four a version
is a line that the journal keeps as it is (`NamesClean`).

That last condition is what lets `Protocol` speak of records although the journal is a text. `ProtocolText` is
the machine with the text: what a start finds is what the file is read back as. `ProtocolNames` keeps every
name and record in every view one that its text keeps, `TheSameRuns` concludes that the two machines have the
same runs, and `TextSafety` and the two exactness theorems hold of the text. `ProtocolLineBreaks` is the run
that shows the condition to be needed.

`SelfDirectory` has the three actors as they are written. A directory is made for a regime; `Valid()` says
that what was done to it is a run of that regime, and the methods ask of the outcomes of operations what
the regime asks. `Live` is any life of such a machine. `FileSystem` is the layer below, a directory with a
volatile and a durable state; `DurableViews` proves that its operations do what the protocol says they do,
now and after a power loss, and `DurableReleases` the same of the directory of releases. `DurableHistory` puts
the two together: over any history of operations, stops inside them and power failures, the file systems show
what the protocol says (`HistoryShows`), so what is found on disk can be started (`MachineIsSafe`).
`JournalFile` is the text of the journal, `JournalOnDisk` that text on disk.

**Versions.** The zero-padded comparison with its pre-release flag, what it says of versions as they are
written, and the ladder that keeps the advertised and the recorded version from going backwards. The protocol's monotonicity rests on it.

**Routes and the proxy config.** The validators, the sort, the printer with its two variables between
routes, a line reader for what the printer emits, and what a request is answered by.

**Streams and buffers.** The chunk-fed line splitter with its two buffers and a receiver that may hang
up, the chunked fetch of a remote file, and the bounded log buffers with cursor resume.

**Releases of a service.** Retention and rollback selection over any sequence of deploys, sweeps and
rollbacks; and the escaping of environment values.

## Where the code and its documentation differ

- The three starts a swapped release is documented to get include the `exec` that first runs it: the
  service manager starts it at most twice (`CrashLoopBound`, `CrashLoopBoundIsReached`).
- The counter is documented as the starts since the swap. The reconciliation that records a mismatch does
  not clear it, so a later swap can begin at two and its release gets no guarded start at all
  (`SwapInheritsCounter`).
- A process that stops between the swap and its record leaves a staged journal, and the guard acts only on
  a swapped one, so a release that came in that way is not guarded (`OnlySwappedIsGuarded`).
- Unpacking syncs the new release directory but not the directory of releases it is an entry of. Without a
  single failing operation an upgrade reaches a settled swap to a release that a power loss takes away
  (`UpgradeCanLoseItsRelease`).
- A version is taken from the manifest as it is, and the comparison trims it, so a release whose name has a
  line break behind it can be upgraded to. Its journal is documented to survive being written and read; it
  does exactly when every version and path is one line (`RoundTrip`). A later upgrade then records a release
  to revert to that does not exist (`LineBreakIsUnsafe`; `UncleanNameIsUnsafe` for other such names).
- An operation that fails after its rename is treated as if it had not happened. After a failed `exec` whose
  swap back could not be synced, a second attempt at the same version clears a release that a power loss
  makes current again; `Tolerant` has the condition that excludes it, `ExcludedStepsAreUnsafe` the run.
- The advertised version is documented as the newest of three. When the running version cannot be read it
  is the running one whatever else is known (`AdvertisedIsNewest`); and the latest release of a manifest
  is a maximum only when one stands behind the last unreadable entry (`LatestIsMaximum`).
- A path of two or more slashes normalises to "/" and only a second time to the whole domain
  (`NormalizeTwice`). The printer normalises the listed path again, so the config is right all the same.
- A buffer is said to hold at most a partial line. After the receiver hung up it may hold more; the
  contract of `DrainLines` is about calls that find it there.

## Model

| member | source | states |
|---|---|---|
| ProtocolSafety.Safety | crates/server/src/self_upgrade.rs:278-456 | After every careful run from a fresh install, with failures of every kind, stops anywhere and power losses that undo what was not synced, `current` names a release directory with the main binary, and so does the release to revert to while a swap is unconfirmed; versions are single lines, and `TextSafety` says it of the journal as a text |
| ProtocolSafety.CarefulIsExact | crates/server/src/self_upgrade.rs:335-344 | A step other than a power loss is allowed if and only if the versions it brings into play are single lines and everything that can follow it is safe: what decides is whether an upgrade starts over a release that the present or any unsynced earlier state of the directory needs |
| ProtocolSafety.StartOverIsUnsafe | crates/server/src/self_upgrade.rs:335-344 | Starting over such a release leads to a state, by clearing it and one power loss, in which a start finds nothing to run |
| ProtocolSafety.RunKeepsInvariant | crates/server/src/self_upgrade.rs:325-456 | From any state where all that could be needed can run, every careful run keeps it so |
| ProtocolSafety.StepKeepsInvariant | crates/server/src/self_upgrade.rs:325-456 | So does every single step of every actor, and every stop and power loss |
| ProtocolSafety.GuardKeepsInvariant | crates/bootguard/src/main.rs:51-96 | No step of the guard, however it ends, makes anything needed that cannot run |
| ProtocolSafety.BootKeepsInvariant | crates/server/src/self_upgrade.rs:477-606 | No step of the reconciliation does |
| ProtocolSafety.PruneKeepsInvariant | crates/server/src/self_upgrade.rs:574-606 | Retention removes nothing that a start could need, after a power loss either |
| ProtocolSafety.PrepareKeepsInvariant | crates/server/src/self_upgrade.rs:332-379 | Clearing, downloading and unpacking at any pace touch nothing that is needed |
| ProtocolSafety.CommitKeepsInvariant | crates/server/src/self_upgrade.rs:381-438 | The staged record, the swap, its record and `exec` need only what can run, however each of them ends |
| ProtocolSafety.UndoKeepsInvariant | crates/server/src/self_upgrade.rs:446-454 | So do the swap back and the records of a failure |
| ProtocolSafety.PowerLossSparesExactly | crates/server/src/self_upgrade.rs:773-778 | Whatever a power loss brings back can run, come what may, if and only if no view needs a release directory whose entry is not synced |
| ProtocolSafety.CurrentSurvivesExactly | crates/server/src/self_upgrade.rs:773-778 | Of `current` alone: it survives every power loss if and only if no view of the link names such a release |
| ProtocolSafety.SyncedReleasesAreKept | crates/server/src/self_upgrade.rs:773-778 | Where the entries of needed releases are synced, safety survives the power loss |
| ProtocolChecks.TolerantSafety | crates/server/src/self_upgrade.rs:225-228 | The code with its own check is safe over every tolerant run |
| ProtocolChecks.TolerantIsExact | crates/server/src/self_upgrade.rs:225-228 | Of the code with its own check a step other than a power loss is allowed if and only if the versions it brings into play are single lines and everything that can follow it is safe: it strands no upgrade, starts no binary that reports an older version, and starts over nothing an unsynced older view needs |
| ProtocolChecks.TolerantIsCareful | crates/server/src/self_upgrade.rs:225-228 | Being newer than what runs implies being needed by nothing; this is where the version order is used |
| ProtocolChecks.PresentNeedsNothingNewer | crates/server/src/self_upgrade.rs:225-228 | What a serving process finds current, and what the guard would revert to, is never newer than itself |
| ProtocolChecks.StepKeepsOrder | crates/server/src/self_upgrade.rs:381-403 | Every tolerant step keeps links and unconfirmed swaps in version order, in every view |
| ProtocolChecks.ExcludedStepsAreUnsafe | crates/server/src/self_upgrade.rs:400-403 | Each failure that strands, each report of an older version and each start over an older view is followed by a run into a state where a start finds nothing to run |
| ProtocolChecks.StrandedFailure | crates/server/src/self_upgrade.rs:291-310 | After a stranding failure the process can end up idle while `current` names a newer release |
| ProtocolChecks.OlderReportStrands | crates/server/src/self_upgrade.rs:477-485 | So it can after the start of a binary that reports an older version |
| ProtocolChecks.RetryClearsCurrent | crates/server/src/self_upgrade.rs:338-344 | From there, asking again for the version that is already current removes the release `current` names |
| ProtocolNames.JournalsStayClean | crates/server/src/self_upgrade.rs:381-455 | Over every run of any regime the release `current` names and every version and path in the journal is one line, now and after any power loss |
| ProtocolNames.StepKeepsTidy | crates/server/src/self_upgrade.rs:278-456 | Every single step, however it ends, keeps names and records so, in every view and in what an upgrade holds in memory, if the version it brings into play is one line |
| ProtocolText.TheSameRuns | crates/bootguard/src/lib.rs:120-179 | With single-line versions the machine whose journal is a text, read back at every start, has exactly the runs of the protocol, and without them a run of a regime is none |
| ProtocolText.StoreIsReadBack | crates/bootguard/src/lib.rs:163-179 | One store is read back as the record the protocol says if and only if every version and path of it is one line and its error is |
| ProtocolText.TextSafety | crates/server/src/self_upgrade.rs:278-456 | Safety of the machine with the text, in each of the three regimes that have it; and storing what is read back changes nothing |
| ProtocolText.TextCarefulIsExact | crates/server/src/self_upgrade.rs:335-344 | The careful regime is exact of the text: a step is allowed if and only if it brings single lines into play and everything that can follow it is safe |
| ProtocolText.TextTolerantIsExact | crates/server/src/self_upgrade.rs:225-228 | So is the tolerant one |
| ProtocolLineBreaks.UncleanNameIsUnsafe | crates/server/src/self_upgrade.rs:217-260 | For every fresh install and every newer name with a line break in it or a carriage return at its end, whose further lines say nothing, a run in which nothing else is out of order reaches a swap whose journal says to revert to a release that was never there |
| ProtocolLineBreaks.LineBreakIsUnsafe | crates/server/src/updates.rs:205-211 | A line break behind the name of any newer release is enough, since the comparison trims it |
| ProtocolHistory.ConfirmationsIncrease | crates/server/src/self_upgrade.rs:493-501 | The versions ever recorded as confirmed strictly increase over every run, whatever fails and wherever the power is lost, and `current` is never older than the last of them |
| ProtocolHistory.ConfirmMustSettle | crates/server/src/self_upgrade.rs:493-500 | A confirmation may be recorded in some way if and only if every run that goes on from it keeps the history increasing: it must be durable or not recorded |
| ProtocolHistory.UnsettledConfirmRepeats | crates/bootguard/src/lib.rs:163-178 | A confirmation whose directory sync failed can be undone by a power loss and is then made a second time |
| ProtocolHistory.ConfirmKeepsHistory | crates/server/src/self_upgrade.rs:493-501 | A version is confirmed only on top of strictly older ones |
| ProtocolHistory.StepKeepsHistory | crates/server/src/self_upgrade.rs:325-456 | Every step keeps all a start may find at or above the last confirmed version |
| ProtocolOutcomes.ReliableSafety | crates/server/src/self_upgrade.rs:325-456 | When every operation succeeds or stops the process or the machine, the code as it is keeps `current` and what the guard would revert to able to run |
| ProtocolOutcomes.ReliableIsTolerant | crates/server/src/self_upgrade.rs:225-228 | On such a machine no older view ever needs what an upgrade starts over: the guard settles an unconfirmed swap before anything serves |
| ProtocolOutcomes.JournalDeterminesCurrent | crates/server/src/self_upgrade.rs:381-403 | In every reachable state, and in every state a power loss can bring back, the journal state says which release `current` names: the target when confirmed, the previous one after a failed `exec` or a rollback, one of the two while staged or swapped, and the version that was running after a failure |
| ProtocolOutcomes.StepKeepsReliable | crates/server/src/self_upgrade.rs:440-455 | That correspondence is inductive over the steps of all three actors, stops inside an operation included |
| ProtocolSwap.StagedTargetNeedsCrash | crates/server/src/self_upgrade.rs:396-403 | A staged journal whose target is current means that the swap is just being recorded, or that at some moment of the run the process or the machine stopped between this very swap and its record |
| ProtocolSwap.StepExplains | crates/server/src/self_upgrade.rs:396-403 | One step back, every such view comes from the swap itself, from a stop inside it, or from such a view |
| ProtocolSwap.WithoutStopStagedPasses | crates/server/src/self_upgrade.rs:396-403 | Without a stop the staged state never outlives the upgrade that wrote it |
| ProtocolLoop.CrashLoopBound | crates/bootguard/src/main.rs:57-96 | With the counter at c or above in all a start may find, a swapped release that never confirms is started at most 2 - c times, and the next start finds `current` back at the previous release with the rollback on record, wherever the guard is cut short and the power lost |
| ProtocolLoop.LoopKeepsInvariant | crates/bootguard/src/main.rs:57-96 | The counter accounts for every start of the target so far, in every view, and a revert that was interrupted is only ever repeated |
| ProtocolLoop.CrashLoopBoundIsReached | crates/bootguard/src/main.rs:57-68 | The bound is exact: the release really gets its 2 - c starts, then the guard really reverts |
| ProtocolLoop.PassReverts | crates/bootguard/src/main.rs:69-96 | A complete pass at the limit ends with the rollback on record and the counter at zero |
| ProtocolLoop.OnlySwappedIsGuarded | crates/bootguard/src/main.rs:51-55 | In a crash loop under any record but a swapped one, confirmed ones included, the guard never moves `current`, whatever fails |
| ProtocolProgress.UpgradeCanComplete | crates/server/src/self_upgrade.rs:325-520 | From wherever a version is serving from `current`, with whatever journal, every newer one can be reached, confirmed, with the counter cleared, and upgraded from again |
| ProtocolProgress.FreshInstallCanUpgrade | crates/server/src/self_upgrade.rs:325-520 | So can it from every fresh install; the safety theorems are not about runs that cannot happen |
| ProtocolFaults.UpgradeCanLoseItsRelease | crates/server/src/self_upgrade.rs:773-778 | From every fresh install and for every newer version, a run without a failing operation reaches a recorded, settled swap after which one power loss leaves `current` naming a release that is not there |
| ProtocolFaults.SwapInheritsCounter | crates/server/src/self_upgrade.rs:526-537 | From every fresh install and for every newer version, a run without a single failing file operation reaches a swap with the counter at two, and one crash later the guard reverts a release the service manager never started |
| SelfDirectory.Directory.GuardMain | crates/bootguard/src/main.rs:27-97 | The guard never refuses a start; it counts or reverts only while a swap is unconfirmed, and reverts exactly when the counter is about to reach its limit |
| SelfDirectory.Directory.Launch | crates/bootguard/src/main.rs:14-21 | The service manager starts what `current` names, as a step of the regime |
| SelfDirectory.Directory.LosePower | crates/bootguard/src/lib.rs:255-258 | A power loss leaves one of the views, settled, and what was synced of the releases |
| SelfDirectory.Directory.RevertSwap | crates/bootguard/src/main.rs:69-96 | The link moves first, the record follows only when it did, the counter is cleared last |
| SelfDirectory.Directory.ResetAttempts | crates/bootguard/src/main.rs:99-103 | Clearing the counter touches nothing else |
| SelfDirectory.Directory.Reconcile | crates/server/src/self_upgrade.rs:477-544 | Only a swapped journal that can be read is acted on: the promised version confirms it, any other records the failure and leaves counter and releases alone |
| SelfDirectory.Directory.ConfirmUpgrade | crates/server/src/self_upgrade.rs:493-520 | Without the record of the confirmation neither the counter is cleared nor anything pruned |
| SelfDirectory.Directory.PruneReleases | crates/server/src/self_upgrade.rs:574-606 | Exactly the releases behind the newest three that neither the journal nor `current` names are gone, or keep the files that could not be removed, and the others are untouched; newest by the version order whenever the names can be read |
| SelfDirectory.PrunesNothingNewer | crates/server/src/self_upgrade.rs:594-605 | Of names that can be read nothing pruned is newer than anything kept for being new |
| SelfDirectory.NewestThreeStay | crates/server/src/self_upgrade.rs:594-605 | Of different names the first three are kept for being new, and each of the others goes unless the journal or `current` names it |
| SelfDirectory.Directory.Upgrade | crates/server/src/self_upgrade.rs:217-315 | An upgrade is refused, changing nothing, exactly when it is not admitted; otherwise it ends replaced, undone or given up, each with its record, and no other release directory is touched |
| SelfDirectory.Directory.Admit | crates/server/src/self_upgrade.rs:217-274 | Only the latest release of the recorded manifest is admitted, when it is newer than what runs, has a digest and a valid address, and upgrades are on for a managed layout |
| SelfDirectory.AdmitsExactly | crates/server/src/self_upgrade.rs:217-274 | In terms of the manifest's entries alone, for every manifest: with the switch on, a managed layout and a valid address, exactly the release that stands out is admitted, if it is newer than what runs and the first entry of its version has a digest |
| SelfDirectory.AdmittedIsNewest | crates/server/src/self_upgrade.rs:239-254 | Of a manifest that can be read, what is admitted is listed with a digest, newer than what runs, and no listed release is newer |
| SelfDirectory.NewestIsAdmitted | crates/server/src/self_upgrade.rs:239-254 | A listed release newer than what runs and than every other listed version, with a digest in its first entry, is admitted when the other gates are open |
| SelfDirectory.Directory.PrepareRelease | crates/server/src/self_upgrade.rs:332-379 | Preparing never touches `current`, the journal or another release, and succeeds exactly when every part of it does |
| SelfDirectory.Directory.Fetch | crates/server/src/self_upgrade.rs:338-362 | Nothing an earlier attempt left survives a successful fetch, and a clearing that fails leaves some of its files |
| SelfDirectory.Directory.ClearRelease | crates/server/src/self_upgrade.rs:338-344 | When clearing succeeds the stale directory is gone and nothing else is |
| SelfDirectory.Directory.LeaveRest | crates/server/src/self_upgrade.rs:338-344 | When it fails some of the files of that one directory are gone |
| SelfDirectory.Directory.Unpack | crates/server/src/self_upgrade.rs:710-779 | A tarball is accepted exactly when every entry can be processed, no file has a hostile path and the main binary is there, and then the release holds exactly the known files below its top directory |
| Tarball.UnpacksSnoc | crates/server/src/self_upgrade.rs:716-769 | One more entry adds its file, if it is an expected one, and nothing else |
| Tarball.FileLands | crates/server/src/self_upgrade.rs:716-769 | What lands is exactly what lies right below a top-level directory under one of the twelve published names, and it lands under that name |
| Tarball.AcceptedExactly | crates/server/src/self_upgrade.rs:716-772 | A tarball is accepted if and only if every entry can be processed, no file's path is absolute or goes up, and the main binary lies below a top-level directory |
| SelfDirectory.Directory.CommitRelease | crates/server/src/self_upgrade.rs:381-456 | Once staged, the upgrade ends in one of the recorded ways |
| SelfDirectory.Directory.SwapLink | crates/bootguard/src/lib.rs:227-237 | The upgrade goes on only when the swap reported success; a failed one changed nothing or is not settled |
| SelfDirectory.Directory.RecordAndExec | crates/server/src/self_upgrade.rs:401-438 | The new binary takes over only with the swap on record |
| SelfDirectory.Directory.SwapItBack | crates/server/src/self_upgrade.rs:440-456 | After a failed `exec` the previous release is current again and the precise failure is on record |
| SelfDirectory.Directory.SwapLinkBack | crates/server/src/self_upgrade.rs:446-447 | The same of the swap back after a failed `exec` |
| SelfDirectory.Directory.RecordTheFailure | crates/server/src/self_upgrade.rs:296-309 | Giving up frees the live slot whether or not the failure can be recorded, and leaves `current` where the upgrade found it unless it was stranded |
| SelfDirectory.WhatTheyDidIsSafe | crates/server/src/self_upgrade.rs:325-456 | Whatever methods were called on a directory of the first three regimes, it is safe, and was after every single operation |
| SelfDirectory.WhatTheyDidIsOnFile | crates/bootguard/src/lib.rs:120-179 | Whatever methods were called on a directory of a regime, the machine with the text did the same: every record they stored is what is read back |
| SelfDirectory.WhatTheyConfirmedIncreases | crates/server/src/self_upgrade.rs:493-501 | On a directory of durable confirmations the versions on record only went up |
| SelfDirectory.Live | crates/server/src/self_upgrade.rs:325-456 | Any life of the machine from a fresh install, with guard passes, starts, reconciliations, upgrades, crashes and power losses in any order, whose operations succeed, is safe at its end and after every single operation |
| FileSystem.Directory.StoreFile | crates/bootguard/src/lib.rs:244-258 | Cut short anywhere, by a crash or a failing operation, a write leaves the whole old content or the whole new one; once it reports success only the new one can be found |
| FileSystem.Directory.ReplaceLink | crates/bootguard/src/lib.rs:227-237 | The same for the link, a leftover temp link included |
| FileSystem.Directory.RenameAndSync | crates/bootguard/src/lib.rs:235-236 | The rename is where the new content can first be found, the directory sync where the old one can last be found |
| FileSystem.Directory.RemoveFile | crates/bootguard/src/lib.rs:210-215 | A removed counter may come back after a crash, with its old content and no other |
| FileSystem.HistoryIsExplained | crates/bootguard/src/lib.rs:163-178 | After any number of writes that fail, crash or succeed, what is found under a name is the whole content of the last write that settled or of one begun since; torn contents and temp files never show |
| FileSystem.FollowsKeeps | crates/bootguard/src/lib.rs:163-178 | One such change, however it ends, keeps that |
| FileSystem.CrashProtects | crates/bootguard/src/lib.rs:227-258 | Whatever temp files a crash leaves, the next write is as safe as the first |
| FileSystem.RenameTemp | crates/bootguard/src/lib.rs:252 | Renaming a synced temp file adds exactly one possible content to one name |
| FileSystem.SyncDirSettles | crates/bootguard/src/lib.rs:255-258 | After the directory sync exactly the present content is possible |
| FileSystem.TempDoesNotShow | crates/bootguard/src/lib.rs:244-251 | Nothing done to a temp file shows under the names, now or after a crash |
| FileSystem.RenameShows | crates/bootguard/src/lib.rs:252-258 | Between the rename and the directory sync the old and the new state of all names are possible, after it only the new one |
| JournalFile.RoundTrip | crates/bootguard/src/lib.rs:120-179 | Load after store gives the record back, with the error on one line, exactly when no version and no path holds a newline or ends in a carriage return; values may hold equals signs |
| JournalFile.RenderSpells | crates/bootguard/src/lib.rs:163-176 | The file, spelled out: seven keys in their order, each on a line with its value |
| JournalFile.FlattenedBreak | crates/bootguard/src/lib.rs:164-165 | A line break in the error is written as a semicolon and a blank, and the text around it stays |
| JournalFile.UnknownKeyIsSkipped | crates/bootguard/src/lib.rs:138-155 | A line whose key the reader never learned changes nothing, wherever it stands |
| JournalFile.StatesKnown | crates/bootguard/src/lib.rs:67-90 | Exactly six names are states, and each is written as it is read |
| JournalFile.LoadRendered | crates/bootguard/src/lib.rs:138-178 | A record whose further lines hold no equals sign is read back field by field, of each its first line less a final carriage return |
| JournalFile.ReadValuesHaveNoNewline | crates/bootguard/src/lib.rs:138-155 | No text makes the reader produce a value with a newline |
| JournalFile.Load | crates/bootguard/src/lib.rs:120-158 | The line loop computes what the file means; no file and no known state mean no journal |
| JournalFile.StateNameRoundTrip | crates/bootguard/src/lib.rs:67-90 | Every state name is read back as its state |
| JournalFile.AttemptsRoundTrip | crates/bootguard/src/lib.rs:192-207 | Every 32-bit counter is read back as it was written |
| JournalFile.CounterIsRead | crates/bootguard/src/lib.rs:192-197 | A number with whitespace around it is read as that number, and as zero when it has more than 32 bits |
| JournalFile.OtherCounterIsZero | crates/bootguard/src/lib.rs:189-197 | A text with anything else in it counts as zero, and so does no file |
| JournalOnDisk.LoadAfterCrashes | crates/bootguard/src/lib.rs:160-179 | Once there is a journal, no sequence of failing writes and crashes makes it load as anything but one of the stored records; a crash never disarms the guard |
| JournalOnDisk.LoadAfterStore | crates/bootguard/src/lib.rs:160-179 | A store that reported success is what is loaded, before and after a crash |
| DurableViews.StoreShows | crates/bootguard/src/lib.rs:163-178 | `store`, of any journal, does to the directory, now and after a power loss, what the machine with the text says of a store that ended that way |
| DurableViews.SwapShows | crates/bootguard/src/lib.rs:227-237 | So does `swap_current` |
| DurableViews.CountShows | crates/bootguard/src/lib.rs:201-207 | So does `write_attempts` |
| DurableViews.ClearShows | crates/bootguard/src/lib.rs:210-215 | So does `clear_attempts`, after which the counter may come back |
| DurableViews.CrashShows | crates/bootguard/src/lib.rs:255-258 | After a crash of the file system the directory shows one of the protocol's views, and nothing else can come back |
| DurableViews.EveryViewMayCome | crates/bootguard/src/lib.rs:255-258 | Every one of the views is what some crash leaves |
| DurableViews.StopInsideShows | crates/bootguard/src/lib.rs:244-258 | A stop anywhere inside a write is, in the protocol, a stop before it, inside it or after it |
| DurableReleases.CrashSurvives | crates/server/src/self_upgrade.rs:773-778 | A crash of the directory of releases leaves what the protocol says survives: of what is not loose, the directory and at least its files |
| DurableReleases.LooseMayBeLost | crates/server/src/self_upgrade.rs:773-778 | Every release with an unsynced entry is gone after some crash |
| DurableReleases.MakeShows | crates/server/src/self_upgrade.rs:713 | Making a release directory makes its entry, and no other, one that a crash can take away |
| DurableReleases.PutShows | crates/server/src/self_upgrade.rs:753-757 | An unpacked file changes nothing of the other releases, and syncs nothing |
| DurableHistory.HistoryShows | crates/bootguard/src/lib.rs:163-258 | Over every history of the operations as they are carried out on the two directories, of stops inside them and power failures, the file systems show what the machine with the text says, and what happened is a run of it |
| DurableHistory.StepKeepsShowing | crates/bootguard/src/lib.rs:163-258 | Each step of each actor does to the file systems what the protocol says it does to its disk |
| DurableHistory.LossKeepsShowing | crates/bootguard/src/lib.rs:255-258 | Whatever two directories a power failure leaves, it is a power loss of the protocol: the view and the surviving releases are derived |
| DurableHistory.MachineIsSafe | crates/server/src/self_upgrade.rs:278-456 | From every fresh install and over every history in a regime with safety, what is found on disk can be started, and so can what the guard would revert to |
| DurableHistory.PowerFailureSparesExactly | crates/server/src/self_upgrade.rs:773-778 | Whatever the next power failure leaves, `current` can be started, if and only if no state of the link that may come back names a release whose entry is not synced |
| DurableHistory.FreshMachine | packaging/nudo.service:8-16 | The documented install, a release directory and the link to it, is such a machine, for a release of any single-line version |
| Versions.CompareVersions | crates/server/src/updates.rs:205-239 | The component loop decides by the first position where the numbers differ, and by the pre-release flag when there is none |
| Versions.SmallerNumberIsOlder | crates/server/src/updates.rs:222-228 | Of two written versions, with any prefixes and suffixes, the one with the smaller number where they first differ is the older |
| Versions.LongerIsNewer | crates/server/src/updates.rs:220-228 | More numbers behind the same ones make a version newer as soon as one of them is not zero |
| Versions.SuffixDecides | crates/server/src/updates.rs:232-238 | With the same numbers up to zeros behind, a version whose suffix holds a dash is older than one whose suffix holds none, and otherwise they are equal |
| Versions.OnlyNumbersAreRead | crates/server/src/updates.rs:206-216 | A version whose part in front of the suffix holds anything but digits and dots cannot be read, and so is never newer |
| Versions.TotalPreorder | crates/server/src/updates.rs:205-239 | On strings it can read the comparison is reflexive, total and transitive, despite unequal lengths and the pre-release flag |
| Versions.CompareReversed | crates/server/src/updates.rs:205-239 | Swapping the arguments turns the answer round, and there is an answer exactly when both can be read |
| Versions.EqualMeans | crates/server/src/updates.rs:220-238 | Equal means the same numbers up to trailing zeros and the same flag |
| Versions.IsNewerTransitive | crates/server/src/updates.rs:241-244 | Newer than a newer one is newer, and different |
| Versions.BelowWhatIsNewer | crates/server/src/updates.rs:241-244 | What is not newer than a version is below everything that is newer than it, unreadable versions included |
| Versions.WrittenVersionIsRead | crates/server/src/updates.rs:206-216 | A version written from its numbers, with or without the prefix and a suffix, is read as exactly those numbers, and as a pre-release exactly when the suffix holds a dash |
| Versions.ParseDotted | crates/server/src/updates.rs:211-214 | Numbers joined by dots are read back, each within 64 bits |
| Versions.BestKnownVersion | crates/server/src/updates.rs:252-260 | The loop over the candidates returns the advertised version |
| Versions.AdvertisedIsNewest | crates/server/src/updates.rs:246-260 | It is one of the three; none that can be read is newer when the running one can be read; and it protects what was recorded exactly then |
| Versions.RecordedNeverGoesBack | crates/server/src/updates.rs:317-353 | Over any sequence of manifests and running versions, the recorded version never goes backwards between any two checks |
| Versions.LatestOfTail | crates/server/src/updates.rs:167-171 | The pick is a newest entry among those behind the last unreadable one |
| Versions.LatestIsMaximum | crates/server/src/updates.rs:162-172 | It is a true maximum exactly when a maximum stands behind the last unreadable entry, so always when all can be read |
| Versions.LatestVersion | crates/server/src/updates.rs:167-171 | The scan of the manifest returns that pick |
| Versions.LatestStandsOut | crates/server/src/updates.rs:167-171 | Of any entries, readable or not, what is picked is the one entry that is newer than every entry behind it and is the first to be so |
| Versions.SortNewestFirst | crates/server/src/self_upgrade.rs:589-594 | The names are kept, and in order when all can be read |
| Routes.NormalizeTwice | crates/proto/src/lib.rs:391-429 | Normalising is idempotent exactly off the paths of two or more slashes, and a second time always reaches a fixed point |
| Routes.NormalizedShape | crates/proto/src/lib.rs:379-429 | A normalised path is empty, a bare slash in that one case, or begins with a slash, does not end in one and holds only allowed characters |
| Routes.NormalizesExactly | crates/proto/src/lib.rs:391-429 | What normalises to a path is exactly that path with or without its leading slash, any slashes behind it, and any whitespace around |
| Routes.RootExactly | crates/proto/src/lib.rs:394-398 | What normalises to the whole domain is exactly nothing, or a single slash, up to whitespace |
| Routes.WrittenPathNormalizes | crates/proto/src/lib.rs:391-429 | All these spellings of a path are one path, for every path that can be kept |
| Routes.RefusedPaths | crates/proto/src/lib.rs:385-389 | No normalised path holds a blank, a brace, a quote, a line break or a matcher character, an empty segment or two dots |
| Routes.DomainChars | crates/proto/src/lib.rs:313-365 | A valid domain holds only letters, digits, dashes, dots and the wildcard |
| Routes.TrimmedDomain | crates/proto/src/lib.rs:313-365 | Its trimmed form is valid, not empty, and free of anything a scheme, a port or a path begins with |
| Routes.WordsAreADomain | crates/proto/src/lib.rs:313-365 | Two words of letters and digits with a dot between them are a domain, with a wildcard in front as well, and one word is none |
| Routes.RouteTextRoundTrip | crates/cli/src/service_commands.rs:208-251 | Every valid route written as its label and its port is read back with the same domain, normalised path and port |
| Routes.TypedRouteIsRead | crates/cli/src/service_commands.rs:208-251 | A route typed as domain, path and port, with whitespace around it or as a pasted address with its scheme, is read as these parts |
| Routes.TypedPathIsKept | crates/cli/src/service_commands.rs:208-251 | A path typed with slashes behind it is that path, in the route and in its label, and never the whole domain |
| Routes.ParsedRoutesAreValid | crates/cli/src/service_commands.rs:208-251 | Everything the command line accepts is valid, and writing it down and reading it again only normalises its path |
| RouteOrder.SortSorts | crates/proto/src/lib.rs:490-495 | The sorted list holds the same routes, none before one it should follow |
| RouteOrder.OrderSpelled | crates/proto/src/lib.rs:490-495 | Domains go by the first character that differs, within a domain longer paths come first, and paths of one length go by the first character that differs |
| RouteOrder.SortIsStable | crates/proto/src/lib.rs:490-495 | Routes with the same domain and path keep the order they came in |
| RouteOrder.OrderIndependence | crates/proto/src/lib.rs:460-497 | The order of the input does not matter exactly when no two different routes share a domain and a path |
| RouteOrder.SortedIsUnique | crates/proto/src/lib.rs:490-495 | There is only one sorted arrangement of routes whose keys tell them apart |
| RouteOrder.ListedRoutes | crates/proto/src/lib.rs:469-488 | The list holds each service's routes in list form, and nothing else |
| RouteOrder.ListedExactly | crates/proto/src/lib.rs:473-487 | A listed route carries the id and name of its service, its domain trimmed and its path normalised; one that does not normalise is listed as it is and not as the whole domain |
| RouteOrder.RearrangedServices | crates/proto/src/lib.rs:470-488 | Reordering the services rearranges the same listed routes |
| RouteOrder.RearrangedRoutes | crates/proto/src/lib.rs:473-487 | So does reordering the routes within a service |
| Ingress.Render | crates/server/src/ingress.rs:83-215 | The text is the config's lines, in order, whatever the domains are |
| Ingress.RenderHeader | crates/server/src/ingress.rs:88-107 | The global block, with its address line only when there is an address |
| Ingress.RenderBlocks | crates/server/src/ingress.rs:139-212 | The two variables kept between routes are enough to open a block at each change of domain and close every one |
| Ingress.RenderRoute | crates/server/src/ingress.rs:158-207 | A route is written with its note, a handler that is bare only for the whole domain, and an upstream on the loopback address |
| IngressMeaning.RouteSpelled | crates/server/src/ingress.rs:158-199 | The four lines of a route, spelled out: a prefix-stripping handler for a path, a bare one for the whole domain, and HTTP/2 in the clear for the one protocol that asks for it |
| IngressMeaning.AdminSpelled | crates/server/src/ingress.rs:93-102 | The admin line says the default port when none is set, and otherwise the port that is, on the loopback address |
| IngressMeaning.AdminIsRead | crates/server/src/ingress.rs:93-102 | And so it is read back |
| Ingress.CommentSafeIsOneLine | crates/server/src/ingress.rs:217-231 | No name can end its comment |
| IngressMeaning.InvalidIsNamed | crates/server/src/ingress.rs:126-137 | Every route that is not written is named, with its service, in a comment |
| IngressMeaning.CommentKeepsNames | crates/server/src/ingress.rs:224-231 | A name without control characters is in its comment as it is |
| IngressMeaning.CommentFlattens | crates/server/src/ingress.rs:224-231 | A control character in a name becomes a blank |
| IngressReader.ReadBlocks | crates/server/src/ingress.rs:139-212 | Reading the blocks recovers the grouped routes |
| IngressReader.ReadRoute | crates/server/src/ingress.rs:155-199 | Reading a route's lines recovers its path, scheme and port |
| IngressReader.ReadOptions | crates/server/src/ingress.rs:92-107 | Reading the options recovers the admin port and the address |
| IngressReader.ReadSkipped | crates/server/src/ingress.rs:126-137 | What is said of invalid routes is not read as configuration |
| IngressMeaning.ReadsBack | crates/server/src/ingress.rs:69-215 | Reading a rendered config gives exactly the admin port, the address and the valid routes in order, for every service name and every invalid route, if and only if the address is one line and every further line of the target's name is blank or a comment |
| IngressMeaning.NoSecondOptions | crates/server/src/ingress.rs:90-93 | A name with any other line makes the whole config unreadable, whatever those lines are |
| IngressMeaning.ConfigIsOneLiners | crates/server/src/ingress.rs:83-215 | No value breaks out of its line when name and address are single lines |
| IngressMeaning.UsableRoutes | crates/server/src/ingress.rs:119-124 | What is written is exactly the valid routes of the services in list form, sorted |
| IngressMeaning.ListedIsValid | crates/proto/src/lib.rs:473-514 | Listing neither saves an invalid route nor loses a valid one |
| IngressMeaning.FlattenGroups | crates/server/src/ingress.rs:139-208 | Taken apart again, the blocks are the routes in order: none lost, added or moved |
| IngressMeaning.OneBlockPerDomain | crates/server/src/ingress.rs:139-153 | Every domain has one block |
| IngressMeaning.GroupsLongestFirst | crates/proto/src/lib.rs:466-496 | Within a block longer paths come first, also after the second normalisation |
| IngressMeaning.FirstMatchIsLongest | crates/proto/src/lib.rs:466-468 | The first handler that matches has the longest path of all that match |
| IngressMeaning.LongestPathWins | crates/server/src/ingress.rs:139-208 | For any services, domain and request, the block of a domain answers with a valid route of that domain whose path is the longest that matches, and with none only when none matches |
| IngressMeaning.HostIsAnswered | crates/server/src/ingress.rs:139-208 | A host is answered so by the routes of its own domain if there are any, and otherwise by those of the wildcard one level up |
| IngressMeaning.SitesOffer | crates/server/src/ingress.rs:139-208 | A block offers exactly what the services' valid routes on that host do |
| IngressMeaning.TypedRouteIsOffered | crates/server/src/ingress.rs:139-208 | From the command line to the proxy: a route typed for a domain, path and port is offered on that domain under exactly that path, over HTTP/2 in the clear exactly when it was given as gRPC |
| IngressMeaning.SameRoutesSameConfig | crates/server/src/ingress.rs:55-67 | Rearranging services or routes leaves the config byte for byte the same when domains and paths tell the routes apart |
| Streaming.Buffer.DrainLines | crates/server/src/ssh.rs:697-736 | Every line that ended is handed over in order until the receiver hangs up; the call says whether it did; otherwise the buffer is left without a newline and bounded |
| Streaming.Buffer.FlushRemainder | crates/server/src/ssh.rs:739-755 | A last line without a newline is handed over if it holds anything |
| Streaming.Sink.Send | crates/server/src/ssh.rs:715-717 | A receiver that hung up takes nothing more |
| Streaming.CompleteAppend | crates/server/src/ssh.rs:703-718 | More input only continues what had not ended |
| Streaming.LinesAreCompleteAndRest | crates/server/src/ssh.rs:387-392 | The lines of a stream are those that ended and what is left |
| Streaming.WrittenLinesAreRead | crates/server/src/ssh.rs:697-755 | Lines written one after the other, each with its newline, and a last one with or without, are the lines that are read |
| StreamedCommand.ChunkIndependence | crates/server/src/ssh.rs:697-755 | What is handed over is the lines of the whole stream for every way of cutting it exactly when no line is too long for the buffer, the last one by more than a byte |
| StreamedCommand.FeedIsWhole | crates/server/src/ssh.rs:697-755 | The same from any buffer in the middle of a stream |
| StreamedCommand.SomeCuttingShows | crates/server/src/ssh.rs:720-733 | Every stream with a longer line is cut visibly by some chunks |
| StreamedCommand.ShortStretchesAreTame | crates/server/src/ssh.rs:720-733 | No stretch without a newline longer than the limit is enough |
| StreamedCommand.StreamsDoNotMix | crates/server/src/ssh.rs:401-430 | Each stream's lines do not depend on the other stream's messages |
| StreamedCommand.EachStreamWhole | crates/server/src/ssh.rs:387-433 | A consumer that stays sees exactly the lines of each stream |
| StreamedCommand.ExecStreaming | crates/server/src/ssh.rs:393-433 | The receiver gets the first lines of that output, as many as it takes; the exit code is the last status before the close or before the receiver was found gone, or -1; with room for all output it is that very status when it is below 2^31, zero exactly when the status is, and -1 when none came |
| StreamedCommand.StatusAsSigned | crates/server/src/ssh.rs:419 | A status is returned as the signed 32-bit number with the same bits: itself below 2^31, and zero only for zero |
| StreamedCommand.LastStatusDecides | crates/server/src/ssh.rs:393-425 | When everything is taken the code comes from the last status before the close, and is what it was when there is none |
| StreamedCommand.RoomForAll | crates/server/src/ssh.rs:405-425 | A receiver that takes everything loses no status |
| RemoteFile.ReadFile | crates/server/src/ssh.rs:553-618 | For any remote the fetch ends; it succeeds only with exactly the measured size, within the limit, without a gap; and when the file does not change and the remote answers with its size in digits it returns exactly the file |
| RemoteFile.SizeIsRead | crates/server/src/ssh.rs:556-563 | A size in digits with whitespace around it is read as that size if it fits 64 bits, and otherwise as none |
| Events.Bus.constructor | crates/server/src/events.rs:57-64 | The capacity is at least one |
| Events.Bus.PublishLog | crates/server/src/events.rs:109-126 | After any operations a service's buffer is the last lines published to it, as many as fit, and other services' are unchanged |
| Events.Bus.ForgetService | crates/server/src/events.rs:170-176 | A forgotten service starts over, and no other does |
| Events.Bus.Backfill | crates/server/src/events.rs:132-140 | The last lines published, up to the limit and the capacity, oldest first |
| Events.Bus.BackfillAfterCursor | crates/server/src/events.rs:144-157 | A resumed client has everything without gap or repeat exactly when its line is the first held one with its cursor, or was the last to go and no held one has its cursor |
| Events.ResumeIsExact | crates/server/src/events.rs:142-157 | The same of any history; with distinct cursors that is when the line is held or was the last to go (`DistinctResume`) |
| Events.SharedCursorRepeats | crates/server/src/events.rs:150-151 | A line that shares its cursor with an earlier held one is handed out again |
| Retention.RollbackChooses | crates/server/src/systemd.rs:356-378 | An explicit rollback succeeds exactly for retained releases that are not live; an unqualified one picks the newest of those and fails exactly when there are fewer than two |
| Retention.SweepRetains | crates/server/src/systemd.rs:325-344 | A finished sweep retains the newest ones in order, plus the live one, at most one more than the number kept |
| Retention.RollbackAfterSweep | crates/server/src/systemd.rs:325-378 | An unqualified rollback survives a sweep exactly when there were two releases and more than one is kept or the live one is not the newest |
| Retention.StepKeepsSound | crates/server/src/systemd.rs:322-344 | Every step keeps the live release retained, a sweep stopped half way included |
| Retention.RunsKeepARollback | crates/server/src/systemd.rs:319-378 | Over any run the live release stays retained, and once there are two releases an unqualified rollback always finds one, if no sweep keeps a single release |
| Retention.KeepingOneLosesTheRollback | crates/server/src/systemd.rs:332-343 | A sweep that keeps one can lose it |
| Retention.FirstOtherIsFirst | crates/server/src/systemd.rs:373-377 | The previous release is the newest that is not live |
| Environment.ExactInverse | crates/server/src/systemd.rs:274-306 | A text reads as a value exactly when it is what the value is written as, for both escapers |
| Environment.EscapeRoundTrip | crates/server/src/systemd.rs:274-306 | Every value is recovered |
| Environment.SpecialsSpelled | crates/server/src/systemd.rs:274-306 | What a backslash, a quote and a line break are written as, and a dollar in a unit file |
| Environment.PlainStaysPlain | crates/server/src/systemd.rs:274-306 | Every other value is written as it is |
| Environment.StaysQuoted | crates/server/src/systemd.rs:256-258 | A written value holds no line break, and the quote behind it is the one that ends it |
| Environment.EscapeEnvFile | crates/server/src/systemd.rs:274-288 | The loop writes what reads back as the value where dollars are not expanded |
| Environment.EscapeUnitEnv | crates/server/src/systemd.rs:293-306 | And where they are |
| Environment.RenderEnvFile | crates/server/src/systemd.rs:259-265 | One line for each entry, in order |
| Environment.EnvLineSpelled | crates/server/src/systemd.rs:259-265 | A plain entry is its key, an equals sign and its value between double quotes, on a line |
| Environment.EnvFileRoundTrip | crates/server/src/systemd.rs:254-265 | The file reads back as the whole map exactly when no key holds an equals sign or a line break |

## Left out

- Network, TLS, hashing, gzip and tar decoding, `exec`, systemd and the SSH transport: their outcomes are inputs of the methods and free choices of the protocol.
- SelfDirectory.Directory.Upgrade: takes the clock and the error texts as parameters, and a version as a plain directory name without path separators; line breaks in it are in the model. That a second request is refused while one is under way is the live slot of the protocol, not a call of this method.
- SelfDirectory.Directory.PruneReleases: says of names that cannot all be read as versions only that they are pruned in some order.
- SelfDirectory.Live: its operations succeed; stops inside an operation are steps of the protocol, and a method that is cut short is a prefix of what it records.
- FileSystem.Directory.StoreFile: a failing operation is one of five positions with any partial content; a failure after an effect is modelled for the directory sync only.
- ProtocolSafety.Safety: takes that a power loss keeps the releases it leaves needed, which `PowerLossSparesExactly` characterises and `UpgradeCanLoseItsRelease` shows the code not to ensure.
- FileSystem.Crashed: metadata is ordered. A power loss brings back the state of a whole directory at one moment since its last sync; a file system that keeps some unsynced renames of a directory and not earlier ones could show an old link with a new journal, which `JournalDeterminesCurrent` excludes. The two directories are independent of each other.
- DurableReleases.SyncAllBut: the system's own sync is everything at once but for a release directory that is being filled; syncs of less leave less to lose than the protocol allows for.
- A release directory that was removed may come back after a power loss with any of its files; nothing is claimed of it.
- The overflow of the 32-bit counter at its largest value, which the guard would have to reach by counting starts it reverts at three.
- `refresh_guard_copy`, the audit entries, the database snapshot and the progress shown while an upgrade is live.
- Caddy itself: the block of a host is its own domain's or else the wildcard's one level up, and its first handler whose path matches answers, a handler with a path taking what lies below it.
- IngressMeaning.ReadsBack: the reader is for the emitted subset, not for every Caddyfile.
- The decoding of output bytes as UTF-8, so lines are sequences of bytes; trimming them is the same on bytes.
- The broadcast channels of the event bus and their lag, and the scheduling of the log reader.
- base64 and the shell commands of the remote fetch: a round's answer is the decoded bytes or a failure.
- The map a rendered environment file comes from is the list of its entries in key order.
- The deploy engine around retention and rollback, the store, the API plumbing, the dashboard, and cryptography.
