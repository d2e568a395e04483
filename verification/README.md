# A verified model of the hpc101 platform's controller

The platform gives each student a service container, reached over SSH through a bastion, and forwards submissions to the
judge CSOJ. Its controller keeps one lease per student and has to stay right while the container runtime, the bastion, the
disk, the judge and the process itself may fail between any two calls. This project models that logic in Dafny and proves
what it promises. It has four parts.

**Leases and their two stores.** A lease walks Active, Closing, Draining, Stopped, Reclaimed (`Lease`, `LeaseModel`). Both
stores hold a table of lease objects, hand out copies, and run whole creates and releases in one section under their lock
(`StoreTypes`, `SerializedStores`, `FileStores`). The outside world is a value, `Environment.Env`: what runs, what is on disk,
the log of calls, and every durable state a crash could leave behind, including a half-written temporary file. Each call's
answer is an argument, so a theorem over all arguments is a theorem over all failures. A run is any sequence of locked
sections (`Operations`, `Runs`) from any state. Over all runs: containers are conserved and releases have a single winner
(`Conservation`); the snapshot file is atomic and shows only settled states (`Snapshots`); the file-backed store refines the
in-memory one (`Simulation`); and every caller is told the truth, so the books balance in the callers' words too
(`StoreAnswers`). A life is a restart, a run and a crash at any instant of either; over any sequence of lives
restart and reattachment recover, and every life balances its own books (`Reattach`, `Recovery`).

**Submission idempotency.** Any number of requests, each a program counter, interleave at the granularity of locked sections
and unlocked reads (`Submissions`). `SubmissionHandlers` is the code in its own form, entries shared between the map and the
requests that found them and updated in place, proved to take exactly the steps of that state machine. The theorems are in
`SubmissionTheorems`, and what each request is told in `SubmissionAnswers`; the hash inputs, sort included, are in `Keys` and
`KeyTheorems`.

**The judge's problem ids and the upsert.** base64url with its round trips, and exactly which contests have ambiguous ids
(`ProblemIds`); retry and `SyncProblem` against an arbitrary server, whose every answer may depend on all requests so far
(`Adapter`, `Upserts`).

**Activity.** From channels opened at the bastion through the tracker (`Tracker`), the roster handler (`Roster`) and the
triggers (`Triggers`) to the reason an idle release is safe (`Activity`) and the pass that ends a service (`Expiry`).

## What the proofs found

- A crash after the container was stopped and before the snapshot leaves a lease that every restart keeps Active, for a
  container that is gone (`Recovery.CrashAfterStopStrandsLease`). A restart keeps an Active lease without a container
  exactly when the file said so and its owner runs nothing (`Recovery.RestartHoldsWhatRuns`).
- A snapshot that cannot be examined at startup is taken for missing. The new life then starts without keys, submissions
  and problem ids, whatever it lists, and the file loses them with the first write: reattachment's own, which holds the
  recovered leases alone, or a later one (`Recovery.FailedStatForgets`). They survive a restart, in memory and in the file,
  exactly under the conditions of `Recovery.RestartKeepsOthers`.
- The roster handler looks a lease up and writes a copy back in two sections. The books still balance exactly when no
  release of the copied container went through in between (`Conservation.HandlerWriteBack`); otherwise a running container
  can be lost (`Conservation.StaleRosterWriteLosesContainer`). A late copy also forgets what other rosters said in between,
  so that an idle release can go through just after a channel was reported open (`Activity.StaleRosterForgets`; exactly
  when a copy misleads the idle trigger: `Activity.StaleWriteMisleads`).
- A waiter whose in-flight submission failed deletes whatever entry is under its scope key. Its own is already gone by
  then, so the delete either does nothing or removes a newer entry (`SubmissionTheorems.ClearedIsDead`). Some interleaving
  therefore has two Submit calls of a scope at once, one after an acceptance, or two acceptances: each exactly when four of
  the requests are of that scope and two of them carry the same payload (`SubmissionTheorems.RepeatsExactly`).
- Even an exact repeat can be refused as an incompatible duplicate: when it looked its scope up before the reservation and
  came to reserve after it. Some interleaving refuses a request exactly when there is another of its scope
  (`SubmissionAnswers.RefusedExactly`).
- A problem mapping is stored under course, contest and problem joined with ':'. Another problem has the same key, and
  overwrites it, exactly when a ':' stands where the key can be cut differently (`StoreAnswers.ProblemKeyIsShared`).
- The comment on `csjEncode` (pkg/adapter/adapter.go:82-83) calls the ids collision-free. They are not:
  `ProblemIds.AmbiguousContests` says for which pairs of contests, byte by byte. Ids are unique if no contest contains '?',
  the control character 0x0F, or a byte that UTF-8 does not use.
- Within one scope the payload hash input tells all contents apart only if there is at most one file
  (`KeyTheorems.PayloadDistinguishesOneFile`). The scope key is shared with another set of names unless there is one name
  and it cannot be cut at a '|' in ascending order (`KeyTheorems.ScopeKeyCollides`), and a principal with a '|' can have
  another principal's key (`KeyTheorems.ScopeKeyCollidesAcross`).
- Reattachment matches on labels joined with '/'. The sweep mistakes an orphan for a resource in use, for some listing,
  exactly when its owner, course or problem has a slash at a place where the key can be cut differently
  (`Reattach.SweepIsExact`); slashes in the problem matter as well as those in the course. Beside containers of the owners
  the controller accepts, which have no slash, a course that only begins with one does no harm
  (`Reattach.PlainSweepIsExact`).
- A release that drained and stopped but could not write its snapshot reports an error although the lease is Reclaimed in
  memory (`Runs.ReleaseIsAllOrNothing`).

## Model

| member | source | states |
|---|---|---|
| LeaseModel.TransitionsClimbOneRank | pkg/lease/lease.go:34-51 | The transition table allows exactly the step to the next of the five states: nothing is skipped, nothing goes back. |
| Lease.Lease.Transition | pkg/lease/lease.go:147-155 | Moves the state if the table allows it, and otherwise reports false and changes nothing. |
| Lease.Lease.Release | pkg/lease/lease.go:157-166 | Only from Active: records trigger and time and enters Closing; from any other state nothing changes. |
| Lease.Lease.ExecuteRelease | pkg/lease/lease.go:168-189 | For any callback, environment, final state and error of the in-place loop are those of the recursive walk. |
| Lease.ReleaseWalk | pkg/lease/lease.go:168-189 | With the stores' callback the walk succeeds exactly from Active or Closing with drain and stop succeeding, drained before stopped; a failed drain stops nothing; from later states nothing is called and it fails at once. |
| StoreTypes.Attempt | pkg/controller/store.go:89-112 | One attempt on an Active lease leaves it Reclaimed by its trigger, or rolled back; calls and error are those of the answers. |
| StoreTypes.LeaseTable.FromRecords | pkg/controller/filestore.go:71-77 | A loaded table holds exactly the decoded leases, each in an object of its own. |
| StoreTypes.LeaseTable.Reserve | pkg/controller/filestore.go:301-309 | The table changes only by the Closing placeholder under the principal, and the replaced object is returned unharmed. |
| StoreTypes.LeaseTable.Confirm | pkg/controller/filestore.go:323-326 | The lease replaces the reservation; the caller's object is not the table's. |
| StoreTypes.LeaseTable.Restore | pkg/controller/filestore.go:336-341 | Whatever replaced it, the table is again what it was before the reservation. |
| StoreTypes.LeaseTable.CopyOut | pkg/controller/store.go:46-56 | A reader gets nil or a fresh object with the lease's value. |
| StoreTypes.LeaseTable.CopyAll | pkg/controller/store.go:66-76 | Each stored lease is listed exactly once, in some order. |
| StoreTypes.LeaseTable.RunRelease | pkg/controller/store.go:85-112 | The attempt changes the one lease in place, no other, and no key. |
| SerializedStores.SerializedStore.ReleaseLeaseIf | pkg/controller/store.go:78-112 | For any condition, data, calls and error are those of the in-memory release specification. |
| SerializedStores.SerializedStore.CreateLeaseForPrincipal | pkg/controller/store.go:114-165 | Data, calls and result are those of the in-memory create specification: conflict, runtime failure, or the built lease. |
| SerializedStores.SerializedStore.UpsertLease | pkg/controller/store.go:58-64 | A copy is stored under its owner and nothing else changes. |
| SerializedStores.SerializedStore.LookupByPrincipal | pkg/controller/store.go:46-56 | Nil, or a fresh copy that shares nothing with the store and shows what a run observes. |
| SerializedStores.SerializedStore.AllLeases | pkg/controller/store.go:66-76 | Every lease once. |
| SerializedStores.SerializedStore.RegisterKey | pkg/controller/store.go:27-33 | The key is stored under the principal and nothing else changes. |
| SerializedStores.SerializedStore.GetKey | pkg/controller/store.go:35-44 | The caller sees what a run observes of the registered keys. |
| SerializedStores.SerializedStore.SaveSubmission | pkg/controller/store.go:167-178 | The record is stored under its id and nothing else changes. |
| SerializedStores.SerializedStore.GetSubmission | pkg/controller/store.go:180-194 | The caller sees what a run observes of the stored records. |
| SerializedStores.SerializedStore.ResolveProblem | pkg/controller/store.go:220-225 | The caller sees what a run observes of the mapping: an unmapped problem is the empty string, not an error. |
| SerializedStores.SerializedStore.MapProblem | pkg/controller/store.go:212-218 | The mapping is stored under course:contest:problem. |
| FileStores.NewFileStore | pkg/controller/filestore.go:43-61 | Refused exactly for a torn file that can be examined or a whole one that cannot be read; a whole one that was read gives its state; everything else, also a file that cannot be examined, an empty store. |
| FileStores.FileStore.Load | pkg/controller/filestore.go:63-88 | All or nothing: a snapshot that does not parse changes no field. |
| FileStores.FileStore.UnsafeSaveLocked | pkg/controller/filestore.go:232-247 | Encode, write the temporary file, rename, or remove it: the environment's snapshot write of the current state. |
| FileStores.FileStore.ReleaseLeaseIf | pkg/controller/filestore.go:249-287 | For any condition: an attempt that applied is snapshotted, also when it was rolled back; both errors are reported. |
| FileStores.FileStore.CreateLeaseForPrincipal | pkg/controller/filestore.go:289-353 | The lease stays only if the snapshot was written; otherwise the container is stopped, the prior lease is back, and a failed cleanup is reported. |
| FileStores.FileStore.Settle | pkg/controller/filestore.go:328-352 | Cleanup happens exactly when the snapshot failed, and its failure is part of the error. |
| FileStores.FileStore.UpsertLease | pkg/controller/filestore.go:122-128 | Memory keeps the copy even if the snapshot fails. |
| FileStores.FileStore.MapProblem | pkg/controller/filestore.go:163-180 | A failed snapshot takes the mapping back to what it was, absent or not. |
| FileStores.FileStore.RegisterKey | pkg/controller/filestore.go:144-149 | Memory keeps the key even if the snapshot fails. |
| FileStores.FileStore.SaveSubmission | pkg/controller/filestore.go:190-200 | Memory keeps the record even if the snapshot fails. |
| FileStores.FileStore.GetKey | pkg/controller/filestore.go:151-159 | The caller sees what a run observes of the registered keys. |
| FileStores.FileStore.ResolveProblem | pkg/controller/filestore.go:182-186 | The caller sees what a run observes of the mapping: an unmapped problem is the empty string, not an error. |
| FileStores.FileStore.GetSubmission | pkg/controller/filestore.go:202-215 | The caller sees what a run observes of the stored records. |
| FileStores.FileStore.LookupByPrincipal | pkg/controller/filestore.go:111-120 | Nil, or a fresh copy that shares nothing with the store and shows what a run observes. |
| FileStores.FileStore.AllLeases | pkg/controller/filestore.go:130-140 | Every lease once. |
| Environment.SaveIsAtomic | pkg/controller/filestore.go:232-247 | At every instant of a snapshot write the file is the old one or the whole new state, and changes exactly on success; the temporary file is left behind only by a write that failed. |
| Runs.ReleaseIsAllOrNothing | pkg/controller/filestore.go:264-286 | Where wired, one drain, then one stop unless the drain failed; Reclaimed exactly when no call failed, by that trigger at that time; otherwise equal to before, field by field, exactly because Active leases carry no release metadata; success exactly when Reclaimed and saved. |
| Runs.WiredReleaseCalls | pkg/controller/filestore.go:264-272 | With bastion and runtime wired, no call failed exactly when there was one successful drain and then one successful stop. |
| Runs.FailedSnapshots | pkg/controller/filestore.go:122-200 | A failed snapshot leaves the file as it was; a create and MapProblem then have no effect on memory, while the plain writes (lease, key, submission, roster) stay in memory only. |
| Simulation.StepAgrees | pkg/controller/filestore.go:111-353 | One section with its snapshot written: same observation, same memory, same runtime calls on both stores, and disk equals memory. |
| Simulation.FileStoreSimulatesSerializedStore | pkg/controller/filestore.go:23-29 | Over every run whose snapshots succeed the file-backed store is indistinguishable from the in-memory one, and its file decodes to its memory. |
| Snapshots.StepPoints | pkg/controller/filestore.go:232-353 | Every crash point inside a section shows the old file, or after its rename the section's final state. |
| Snapshots.SnapshotsAreAtomic | pkg/controller/filestore.go:28-29 | At every instant of every run from any state, mid-write crashes included, the file is the state of the last completed rename, and before the first the file the run began with. |
| Snapshots.RunsStayVisible | pkg/controller/store.go:81-165 | Between sections of every run from settled leases each lease is Active or Reclaimed, under its owner's key, and Active ones carry no release metadata. |
| Snapshots.SnapshotsAreVisible | pkg/controller/filestore.go:301-330 | What is on disk is the file the run began with or a memory state between sections: never a reservation, never a half-done release. |
| Conservation.StepConserves | pkg/controller/filestore.go:252-353 | Any section, whatever fails in it, keeps the books. |
| Conservation.ContainersAreConserved | pkg/controller/filestore.go:252-353 | Over every run with fresh ids, bare writes included where they hold what the owner's lease holds: each container held at the start or returned by create is in exactly one of stopped by release, stopped by cleanup, reported, held by its owner's Active lease; whatever runs is held, reported, left by a failed create, or was a stray at the start. |
| Conservation.AtMostOneUnreported | pkg/controller/filestore.go:291-353 | A principal has at most one running container, strays apart, that nobody was told about. |
| Conservation.SingleWinner | pkg/controller/triggers.go:35-63 | Of all manual, max-life and idle releases of a run at most one completes per lease incarnation. |
| Conservation.WriteBackConserves | pkg/controller/filestore.go:122-128 | A bare write of a lease keeps the books exactly when it holds the container its owner's lease holds at that moment, or both hold none. |
| Conservation.HeldUntilReleased | pkg/controller/filestore.go:252-353 | A container a lease once held leaves it only through a release. |
| Conservation.HandlerWriteBack | pkg/controller/bastion.go:47-66 | The handler as written, with anything between its two sections: the books balance after its write exactly when no release of the copied container went through in between. |
| Conservation.StaleRosterWriteLosesContainer | pkg/controller/bastion.go:47-66 | A roster copy written back after a release and a create puts the stopped container back and loses the running one. |
| StoreAnswers.CreateIsAnswered | pkg/controller/filestore.go:289-353 | Every answer of a create, by what happened: a conflict exactly if a lease is in the way, and nothing was called; a runtime failure exactly if the create call failed; the combined error exactly if the cleanup stop failed; the snapshot error exactly if the snapshot failed and no stop did; success with a service exactly if the owner, who had none, has that service afterwards. |
| StoreAnswers.CreatedLease | pkg/lease/lease.go:105-124 | The lease a create leaves, field by field: owner, container, name, host and port of the service, started and seen now, 8 hours to live, 30 minutes to idle, no channel, Active, no release metadata; no other lease changes. |
| StoreAnswers.ReleaseIsAnswered | pkg/controller/filestore.go:252-287 | Every answer of a release: not applicable exactly if no Active lease met the condition, and nothing happened; no error, or the snapshot error, exactly if the lease went from Active to Reclaimed and the snapshot was, or was not, written; otherwise the failed step, the state being what it was. |
| StoreAnswers.WriteIsAnswered | pkg/controller/filestore.go:232-247 | A write reports success exactly if its snapshot was written or there was nothing to write. |
| StoreAnswers.LastWriteIsRead | pkg/controller/store.go:27-44 | Over every run a read of a key, a submission or a mapping shows the last write of it, or what was there at the start; nothing else changes it, and reading changes nothing. |
| StoreAnswers.ReadsShow | pkg/controller/store.go:46-76 | A new store shows nothing, an unmapped problem as the empty string; lookups and listings show the leases as they are. |
| StoreAnswers.ProblemKeyIsShared | pkg/controller/store.go:212-225 | A problem shares its mapping key with another exactly when a colon stands in course, contest or problem where the key can be cut differently. |
| StoreAnswers.LogIsTold | pkg/controller/filestore.go:328-350 | Over every run the call log says of a container exactly what callers were told: issued, gone, undone, not stopped. |
| StoreAnswers.AnswersAreConserved | pkg/controller/filestore.go:342-350 | Of each container held at the start or got by a create exactly one holds: a release said it is gone, a create said it was undone, a create reported that the cleanup failed, or its lease holds it; of no other any. |
| StoreAnswers.OneIsToldGone | pkg/controller/filestore.go:249-262 | At most one release per lease incarnation is told that it went through. |
| StoreAnswers.LosersAreTold | pkg/controller/filestore.go:256-262 | After a release went through every later one for the owner is told that it does not apply and does nothing, until a lease is created or written for the owner. |
| Reattach.AttachContainers | pkg/controller/reattach.go:80-97 | Store, counters and active keys after the first loop are those of the recursive specification. |
| Reattach.ReclaimOrphans | pkg/controller/reattach.go:106-127 | Counts the listed orphans and, given a cleaner, asks to remove each of them once, in order, and nothing else; counts the successes. |
| Reattach.ReattachLeases | pkg/controller/reattach.go:66-160 | An error without client or container list changes nothing; otherwise the three loops; a failed volume or network listing only skips its sweep. |
| Reattach.LastContainerWins | pkg/controller/reattach.go:80-97 | For any list and any failing snapshots each owner of a listed service, named svc- and with all three labels, ends Active on the last one listed: its id, name, host and port, started and seen now, 8 hours to live, 30 minutes to idle, no channel, no release metadata; every other lease is untouched. |
| Reattach.EveryContainerIsCounted | pkg/controller/reattach.go:80-97 | Reattached are the recognised containers whose snapshot was written, orphaned those not recognised; with the failed upserts they add up to the containers listed. |
| Reattach.RecognisedServes | pkg/controller/reattach.go:81-88 | A container is recognised exactly if its name begins with svc- and it has an owner, a course and a problem label, none empty. |
| Reattach.ActiveKeys | pkg/controller/reattach.go:89-94 | The active keys are those of the recognised containers, failed upserts included. |
| Reattach.OnlyOrphansAreTouched | pkg/controller/reattach.go:99-157 | A resource is touched exactly when it has the svc- prefix and its labels are incomplete or no recognised container has its key. |
| Reattach.OrphansAreCounted | pkg/controller/reattach.go:106-127 | Each orphan is counted and removed as often as it is listed. |
| Reattach.OrphansKeepOrder | pkg/controller/reattach.go:106-127 | Orphans are taken in the order of the list. |
| Reattach.SuccessesAreCounted | pkg/controller/reattach.go:119-124 | What is counted as reclaimed are the removals that worked. |
| Reattach.ServiceKeyIdentifies | pkg/controller/reattach.go:114-115 | The joined key identifies the three labels if owner and course avoid '/'. |
| Reattach.KeyIsShared | pkg/controller/reattach.go:89-89 | A full set of labels shares its joined key with a different full set exactly when the owner has a slash after its first character, the course any unless it is nothing else, or the problem one before its last. |
| Reattach.KeyIsSharedByOwner | pkg/controller/reattach.go:114-115 | With a set of the same owner: when the course has a slash after its first character or the problem one before its last. |
| Reattach.SweepIsExact | pkg/controller/reattach.go:107-127 | For every listing a fully labelled svc- resource is swept unless a recognised container has its labels, if and only if no other labels share its key. |
| Reattach.KeyIsSharedWithPlain | pkg/controller/leases.go:261-262 | With a set whose owner is one the controller accepts, without a slash: when the own owner has a slash, not as its first character, or else as within one owner. |
| Reattach.PlainSweepIsExact | pkg/controller/reattach.go:107-127 | For every listing of containers whose owners have no slash the sweep is exact if and only if no such labels share the resource's key. |
| Reattach.OrphanIsKept | pkg/controller/reattach.go:115-126 | Where they do, a container of the other service alone keeps the orphan from being removed. |
| Reattach.SlashedCourseIsAmbiguous | pkg/controller/reattach.go:114-126 | The volume of u, c/d, p survives when only a container of u, c, d/p is listed. |
| Snapshots.PointsAreSnapshots | pkg/controller/filestore.go:232-247 | Every crash point of a run shows the snapshot of a prefix of the run. |
| Recovery.AttachIsRun | pkg/controller/reattach.go:80-97 | Reattachment is a run of bare writes, so everything that holds at each instant of a run holds while a restart writes its snapshots. |
| Recovery.LifeLeavesVisibleFile | cmd/controller/main.go:25-41 | At every instant of a life, its restart included, the file is the one it found or a settled state it had reached. |
| Recovery.LivesLeaveVisibleFile | pkg/controller/filestore.go:28-29 | After any number of lives, each crashed at any instant, the file is absent or a settled state, and the next life is not refused for it. |
| Recovery.RestartHoldsWhatRuns | cmd/controller/main.go:25-41 | After loading and reattaching, every running container is held by its owner's Active lease; an Active lease without a running container remains exactly when the file had it and its owner runs nothing. |
| Recovery.CrashRecovery | cmd/controller/main.go:25-41 | After any number of lives, each crashed at any instant, restarts included: a restart with a complete listing and one container per owner ends with every running container held and every lease settled, whatever its own snapshots do. |
| Recovery.LifeConserves | pkg/controller/filestore.go:342-345 | A restart opens new books. On them is every container a lease holds, after a complete listing all that run, also those an earlier life reported, left over or lost; from then on each has exactly one fate. |
| Recovery.CrashAfterStopStrandsLease | pkg/controller/filestore.go:264-286 | A crash between stop and snapshot leaves an Active lease for a stopped container that every restart keeps. |
| Recovery.RestartKeepsOthers | pkg/controller/filestore.go:55-59 | After a restart, whatever is listed and saved, memory has the snapshot's keys, submissions and problem ids exactly when it was examined and read, or had none; the file still has them exactly when that holds or reattachment wrote nothing. |
| Recovery.FailedStatForgets | pkg/controller/filestore.go:55-59 | When the snapshot cannot be examined the life starts without keys, submissions and problem ids, whatever is listed, and the first key registered is the only one in the file. |
| Tracker.SessionTracker.OpenChannel | cmd/bastion-mgmt/main.go:36-46 | The sessions stay what the history of events says, one event longer. |
| Tracker.SessionTracker.CloseChannel | cmd/bastion-mgmt/main.go:48-61 | The sessions stay what the history says; a close never takes a count below zero or makes a session. |
| Tracker.SessionTracker.Drain | cmd/bastion-mgmt/main.go:63-67 | The session is forgotten. |
| Tracker.SessionTracker.Roster | cmd/bastion-mgmt/main.go:69-77 | Each principal with a session is listed once, with the count and time its history calls for. |
| Tracker.CountIsPeakBalance | cmd/bastion-mgmt/main.go:36-67 | The saturating count is the largest balance of opens over closes of any run of events up to now since the last drain. |
| Tracker.SessionsAreOpened | cmd/bastion-mgmt/main.go:36-67 | The tracker has a session for a principal exactly if it opened a channel since its last drain. |
| Tracker.TimeIsLastActivity | cmd/bastion-mgmt/main.go:36-60 | The time of an entry is that of the last open, or of a later close that brought the count to zero, to whole seconds. |
| Roster.HandleRoster | pkg/controller/bastion.go:41-77 | Without other writers the handler is a run of atomic touches: one per named session, then one zeroing touch per lease not named. |
| Activity.RosterReconciles | pkg/controller/bastion.go:41-77 | Every Active lease ends with the count of the last entry for its owner, or 0 if not named; only count and LastSeenAt change, and only on Active leases. |
| Activity.ReportRecords | pkg/controller/bastion.go:52-63 | One more report keeps LastSeenAt the latest evidence exactly when the lease was not seen after the handler read its clock, unless the bastion reports a time as late. |
| Activity.LeasesRecordEvidence | pkg/controller/bastion.go:46-68 | Over every run of a life, the handler's writes in two sections among them, however late, an Active lease holds the last count learnt, and LastSeenAt is the latest of all evidence, where a copy written back continues from what was known when it was taken. |
| Activity.WriteBackIsTouch | pkg/controller/bastion.go:46-68 | The handler's write-back is the atomic update exactly when the lease is the copy but for the count, and for LastSeenAt where the report overrides it. |
| Activity.FreshCopyForgetsNothing | pkg/controller/bastion.go:46-68 | A copy written back before another update or create for its owner adds its report to all that was learnt. |
| Activity.StaleWriteMisleads | pkg/controller/bastion.go:46-68 | Some idle release does after a write-back what it would not do after the atomic update exactly when the report shows no channel and the lease is no longer Active, or was seen at another time than the copy and the report overrides neither. |
| Activity.StaleRosterForgets | pkg/controller/bastion.go:46-68 | A copy written back after another roster reported an open channel lets an idle release go through at that very moment. |
| Activity.ClocksSuffice | pkg/controller/bastion.go:42-59 | Reports never move LastSeenAt back if no handler's clock is behind the sections before its copy and no bastion's time is ahead of it. |
| Activity.LivesStart | cmd/controller/main.go:25-41 | A life that follows any others, each crashed at any instant, starts with settled leases of the usual idle timeout. |
| Activity.IdleReleaseIsSafe | pkg/controller/triggers.go:56-60 | In any such life an idle release goes through exactly when the lease is Active, the last thing learnt showed no channel, and every sign of activity learnt is over 30 minutes old. |
| Activity.RosterCarriesTracker | cmd/bastion-mgmt/main.go:69-77 | From the tracker's roster the handler hears of each principal exactly what the tracker knows, once. |
| Activity.ReportRoster | cmd/bastion-mgmt/main.go:139-151 | A round of the reporting loop that reaches the controller applies the roster of the tracker's history. |
| Activity.RosterIsLearnt | pkg/controller/bastion.go:41-77 | From a tracker's roster the controller learns of an Active lease's owner exactly what the tracker knows, listed or not. |
| Activity.IdleMeansQuietTracker | pkg/lease/lease.go:134-140 | A tracker reports, the roster is applied, others follow, and an idle release goes through: then since the last drain no run of events up to the report had opened more channels than it closed. |
| Triggers.Tick | pkg/controller/triggers.go:35-43 | One pass is the run of one release attempt per listed lease, the condition checked again under the lock. |
| Triggers.TickReclaimsTheDue | pkg/controller/triggers.go:27-67 | A pass reclaims, and marks with trigger and time, exactly the Active leases whose drain and stop worked and whose deadline has passed, or, for the idle pass, that show no channel and were last seen longer ago than their timeout, in whatever order; every other lease is as it was. |
| Expiry.CreatedServiceEnds | pkg/controller/triggers.go:35-43 | A service that a create started, whatever happens in between but a new create or write of its lease, is ended by the max-life pass exactly when it is still Active, is more than 8 hours old, and drain and stop work. |
| Expiry.FoundServiceEnds | pkg/controller/reattach.go:90-90 | Likewise a service found at a restart: its 8 hours count from the restart. |
| Expiry.IdlePassIsSafe | pkg/controller/triggers.go:56-63 | After any orderly life the idle pass ends a service exactly when it is Active, drain and stop work, the last thing learnt showed no channel, and every sign of activity learnt is more than 30 minutes old. |
| Submissions.StepKeepsInv | pkg/controller/leases.go:687-798 | Every step keeps the protocol's invariant. |
| Submissions.RunsKeepInv | pkg/controller/leases.go:687-798 | In every interleaving: an unfinished entry's owner is in Submit or publishing; done is closed once, by the owner, after the outcome was set; waiters wait on an entry of their own scope and payload, and never own one. |
| SubmissionHandlers.Handler.Lookup | pkg/controller/leases.go:683-685 | The first locked section finds the entry object under the scope key, or nothing. |
| SubmissionHandlers.Handler.ReadEntry | pkg/controller/leases.go:687-708 | The unlocked read sends the request to compare, to wait, or home with a conflict. |
| SubmissionHandlers.Handler.CompareRecord | pkg/controller/leases.go:688-704 | Duplicate exactly if the record of the entry's id carries the same payload hash. |
| SubmissionHandlers.Handler.AfterDone | pkg/controller/leases.go:709-726 | A waiter learns the id of the finished submission, or that it failed. |
| SubmissionHandlers.Handler.ClearScope | pkg/controller/leases.go:712-715 | The delete takes whatever is under the scope key. |
| SubmissionHandlers.Handler.Reserve | pkg/controller/leases.go:735-760 | A free scope gets a new blank entry; a taken one a duplicate or a conflict, and nothing changes. |
| SubmissionHandlers.Handler.Publish | pkg/controller/leases.go:763-798 | The last locked section sets the outcome, closes the channel, and then deletes the entry or answers with the id, in that order. |
| SubmissionTheorems.StepKeepsLiveReserved | pkg/controller/leases.go:711-772 | Unless a waiter deletes a newer entry, every entry in flight or accepted stays under its scope key. |
| SubmissionTheorems.ClearedIsDead | pkg/controller/leases.go:711-715 | When a waiter's delete runs, the entry it waited on is already gone: the delete is harmless exactly when it does nothing. |
| SubmissionTheorems.AtMostOnce | pkg/controller/leases.go:683-772 | In every interleaving without a harmful delete: Submit calls of one scope never overlap, at most one is accepted, none runs after an acceptance. |
| SubmissionTheorems.HarmfulClearBreaks | pkg/controller/leases.go:711-715 | From any reachable state with a harmful delete pending, one more request of the scope is enough for two acceptances. |
| SubmissionTheorems.HarmfulClearHappens | pkg/controller/leases.go:711-769 | Any two equal requests and a third of their scope reach such a state. |
| SubmissionTheorems.RunsKeepReservedOrSpoilt | pkg/controller/leases.go:711-772 | In every interleaving an entry in flight or accepted is under its scope key, or a waiter of that scope has left after its equal failed. |
| SubmissionTheorems.RepeatsExactly | pkg/controller/leases.go:683-772 | Some interleaving of the requests has overlapping Submit calls for a scope if and only if four of them are of that scope and two of those carry the same payload; the same holds for a Submit after an acceptance, and for two acceptances. |
| SubmissionTheorems.DuplicatesAreSound | pkg/controller/leases.go:687-733 | In every interleaving, harmful deletes included, a duplicate answer names a submission accepted for the same scope and payload. |
| SubmissionAnswers.AnswersFollow | pkg/controller/leases.go:709-798 | In every interleaving an answered request is told that Submit failed exactly when its Submit failed, that it was accepted under an id exactly when its Submit returned that id, with the outcome of saving the record, and that it was cancelled or that the earlier submission failed exactly when it left that way. |
| SubmissionAnswers.RepeatsAreAnswered | pkg/controller/leases.go:687-758 | In every interleaving a request answered by comparison is told duplicate with an id exactly when the entry it found was accepted under that id with the same payload; a conflict means another payload, or that it came to reserve and found an entry not accepted yet. |
| SubmissionAnswers.RefusedExactly | pkg/controller/leases.go:741-758 | Some interleaving refuses a request as a conflict if and only if there is another of its scope, whatever the payloads. |
| SubmissionTheorems.DoneClosesOnce | pkg/controller/leases.go:761-787 | In every interleaving an entry's done channel is closed at most once and after its outcome was set; until then its owner is in Submit or publishing. |
| SubmissionTheorems.DeadlockFree | pkg/controller/leases.go:706-772 | While a request is unfinished some request can step, without any being cancelled. |
| SubmissionTheorems.RunsAreBounded | pkg/controller/leases.go:620-799 | n requests take at most 5n steps, whatever the interleaving. |
| Keys.LessIsTotal | pkg/controller/leases.go:414 | The string comparison orders any two names one way only. |
| Keys.LessIsLexicographic | pkg/controller/leases.go:414-414 | A name is smaller exactly if at the first difference it has ended or has the smaller character. |
| Keys.ExchangeSort | pkg/controller/leases.go:412-418 | The in-place exchange sort ends sorted, on a permutation of the names. |
| Keys.SortedIsUnique | pkg/controller/leases.go:412-418 | A collection of names has one sorted listing. |
| Keys.SortedNames | pkg/controller/leases.go:408-418 | Whatever order the map is walked in, the names end as the least-first list of its keys. |
| Keys.ComputeScopeKey | pkg/controller/leases.go:407-425 | The bytes hashed are a function of principal, problem and the set of names. |
| Keys.ComputePayloadHash | pkg/controller/leases.go:429-448 | The bytes hashed are a function of the map. |
| KeyTheorems.ScopeKeyIdentifies | pkg/controller/leases.go:404-425 | Equal scope inputs mean equal principal, problem and names, where none holds a '\|'. |
| KeyTheorems.ScopeKeyCollides | pkg/controller/leases.go:419-424 | Among the sets of names the handler lets through, for one principal and problem, a set shares its input with another exactly when it has two names or more, or one that can be cut at a '\|' into two ascending names that are not blank. |
| KeyTheorems.ScopeKeyCollidesAcross | pkg/controller/leases.go:419-424 | A scope shares its input with one of another principal or problem exactly when the input can be read as a principal of another length, a known problem id and a file name that is not blank. |
| KeyTheorems.PrincipalsShareScope | pkg/controller/leases.go:655-655 | The principal a\|x with problem y has the scope input of principal a with problem x. |
| KeyTheorems.PayloadIdentifies | pkg/controller/leases.go:427-448 | Equal payload inputs mean equal files, where no name holds a ':' and no content a '\|'. |
| KeyTheorems.PayloadDistinguishesOneFile | pkg/controller/leases.go:442-447 | For a given set of names the payload input tells all contents apart exactly when there is at most one name. |
| ProblemIds.BytesOfSextets | pkg/adapter/adapter.go:82-86 | Bytes survive the way to sextets and back, with no dangling sextet and no bits left over. |
| ProblemIds.SextetsOfBytes | pkg/adapter/adapter.go:82-86 | Complete sextets survive the way to bytes and back. |
| ProblemIds.DecodeInvertsEncode | pkg/adapter/adapter.go:82-86 | Decoding an encoding gives the bytes back. |
| ProblemIds.EncodedStrings | pkg/adapter/adapter.go:82-86 | The encodings are exactly the strings over the alphabet without a dangling character or left-over bits. |
| ProblemIds.CharsAreTheAlphabet | pkg/adapter/adapter.go:82-86 | The characters are those of base64url, in their order. |
| ProblemIds.SextetsKeepValue | pkg/adapter/adapter.go:82-86 | Three bytes and their four sextets are the same number, most significant first. |
| ProblemIds.ClashMeansSeparator | pkg/adapter/adapter.go:407-409 | One contest's encoding followed by '_' begins another's exactly when the byte condition holds. |
| ProblemIds.AmbiguousContests | pkg/adapter/adapter.go:407-409 | Two contests have different problems with one id exactly when the byte condition holds between them, one way or the other. |
| ProblemIds.IdsAreInjective | pkg/adapter/adapter.go:407-409 | In contests without '?', 0x0F and bytes from 0xFC on, ids are equal exactly when contest and problem are. |
| ProblemIds.TwoProblemsOneID | pkg/adapter/adapter.go:407-409 | ("ab", "cd?e") and ("ab?cd", "e") both get cdj_YWI_Y2Q_ZQ. |
| Adapter.WhatIsRetried | pkg/adapter/adapter.go:41-54 | An exchange is retried exactly when there was no answer or a status from 500 on, unless a body was read that does not parse. |
| Adapter.WhatIsMissing | pkg/adapter/adapter.go:432-495 | A 404 counts as missing unless its body does not parse or its message has one of the policy words in it, in any case. |
| Adapter.WhatAReplyMeans | pkg/adapter/adapter.go:432-475 | A parsed reply is a success exactly with a 2xx status and code 0, and a policy rejection exactly with a 4xx status and ban, disallowed or forbidden in the message, in any case; otherwise an error with its status, code and message. |
| Adapter.RetryWithBackoff | pkg/adapter/adapter.go:56-77 | The loop's result and number of calls are those of the specification; the waits add up to base times 2^(calls-1) - 1. |
| Adapter.RetryIsBounded | pkg/adapter/adapter.go:56-77 | For any limit r and any outcomes: at most r + 1 calls, all but the last transient, and there is exactly one way to stop, which the loop takes. |
| Adapter.WaitsAreShort | pkg/adapter/adapter.go:35-39 | With the source's constants at most 4 calls, after waits that add up to 0, 200, 600 or 1400 ms. |
| Adapter.FailuresAreOvercome | pkg/adapter/adapter.go:56-77 | Up to three transient failures in a row, not cancelled, are overcome; the fourth call is the last. |
| Adapter.DoCSOJ | pkg/adapter/adapter.go:453-482 | Outcome and log are those of the retried call; a request that cannot be built is never sent. |
| Adapter.CallIsSent | pkg/adapter/adapter.go:453-482 | In the log: the same request at most four times, and at least once if it can be built; the outcome is the answer to the last of them, or a cancellation before the fourth; a success or a 404 is always that answer. |
| Upserts.GetResource | pkg/adapter/adapter.go:484-496 | A 404 is told apart from every other error. |
| Upserts.ResourceIsAnswered | pkg/adapter/adapter.go:484-496 | True exactly if the last answer was a success, false exactly if it was a 404. |
| Upserts.UpsertContest | pkg/adapter/adapter.go:497-511 | Error and log are those of the contest upsert specification. |
| Upserts.ContestIsUpserted | pkg/adapter/adapter.go:497-511 | At most 8 requests; a found contest is updated, a missing one created, never otherwise; no error exactly if the last request was an accepted write, of which there is one at most; an error is the last answer, a cancellation, or a request that could not be built. |
| Upserts.MissingContestIsCreated | pkg/adapter/adapter.go:484-511 | A server that plainly has no such contest is asked once, and then only to create it; no error exactly if it accepts. |
| Upserts.InList | pkg/adapter/adapter.go:546-553 | Found exactly if the id is in the contest's list. |
| Upserts.UpsertProblem | pkg/adapter/adapter.go:513-577 | Error and log are those of the problem upsert specification. |
| Upserts.ProblemIsUpserted | pkg/adapter/adapter.go:536-576 | At most 12 requests; the problem is overwritten exactly if its contest listed it, created exactly if no listing showed it and CSOJ said 404; an error if it exists elsewhere; no error exactly if the last request was an accepted write. |
| Upserts.SyncProblem | pkg/adapter/adapter.go:411-419 | Id, error and log are those of the contest upsert followed, without an error, by the problem upsert. |
| Upserts.SyncIsSafe | pkg/adapter/adapter.go:411-419 | At most 20 requests against any server; an overwrite only after a listing, a creation only after a 404, never both, and neither before the contest was accepted. |
| Upserts.SyncIsAnswered | pkg/adapter/adapter.go:411-419 | No error exactly if the contest was accepted and then the problem with the last request; the id is returned exactly if the contest was accepted; an error is the last answer, or that the problem exists elsewhere, a cancellation, or a request that could not be built. |

## Left out

- HTTP routing, JSON decoding, status text, request validation, the ssh-info string, the student CLI: plumbing. The JSON
  codec is an abstract pair: a completely written file decodes to the state that was encoded.
- Docker SDK calls (pkg/runtime), the WebSocket log stream, certificate signing, deployment files: calls with arbitrary
  answers, or no logic.
- SHA-256: the model stops at the bytes that are hashed; `Submissions` compares the two hashes as strings.
- What CSOJ does with a request; every sequence of answers is allowed. The payloads of PUT and POST are left out, and path
  escaping is taken to be injective.
- The submission status polls and the logs handler, which overwrite a terminal status; the record is reduced to its id and
  payload hash. The idempotency map is memory only and starts empty after a restart.
- Leases that are nil in the map, which only a hand-edited snapshot can hold.
- FileStores.FileStore.Load: a JSON snapshot with a section missing, which keeps that map of the store; the code writes none.
- Clock readings: one per operation, where the code reads the clock separately in a trigger's first check, its second check
  and the recorded release time. Durations saturate as `time.Since` does; deadlines are not truncated to the range of Go's
  time.
- Removing the temporary file after a failed rename is taken to succeed; a file that is left is overwritten by the next
  write and never read.
- The memory model: unlocked reads of an entry's fields are taken to be atomic and in program order.
- The submission steps of different requests are not run concurrently by `SubmissionHandlers`; it proves each section against
  the state machine, whose runs are all interleavings. A cancelled waiter has no method, its step changes only its own place.
- The retry delay is a natural number; with a limit beyond 33 the code's 64-bit shift would overflow.
- `strings.ToLower` is modelled where it can produce an ASCII letter, which is all the searched words need.
- Roster.HandleRoster: run without other writers; what others between the handler's two sections do to the books is
  `Conservation.HandlerWriteBack`, and to the evidence `Activity.LeasesRecordEvidence`.
- Activity.LivesStart: the bare writes of earlier lives are taken to have the idle timeout the code gives every lease.
- StoreTypes.LeaseTable.CopyAll: the copies are returned as values, because their readers only read or write back a copy.
- SerializedStores.SerializedStore.AllLeases: as values, for the same reason.
- FileStores.FileStore.AllLeases: as values, for the same reason.
- SerializedStores.SerializedStore.CreateLeaseForPrincipal: the build function is the one handleCreateService passes.
- FileStores.FileStore.CreateLeaseForPrincipal: the build function is the one handleCreateService passes.
- Activity.IdleMeansQuietTracker: speaks of the tracker's counts, not of real SSH channels: a drain forgets a session that
  may still be closing.
