# BorgBase operator: a verified model

The operator turns `Repository` resources into restic repositories on BorgBase and `ScheduledBackup`
resources into CronJobs; `corg` is its command line. This project models four parts of it in Dafny and
proves what they promise, for all inputs, all runs and all reachable states.

**The Repository protocol.** `Repository.dfy` holds the parts of a reconcile pass as functions,
`RepositoryRuns.dfy` a state machine of one resource and the world around it: a pass that may stop after any
call, writes that take effect although they report an error, init Jobs whose pods carry the credentials they
were started with, `corg reinit`, `corg rotate-password`, edits, deletion. `Reconciler.dfy` and `Repair.dfy`
have the same code on objects that change in place, and each method there is proved to be a run of the
machine. `KeySafety.dfy` proves that the Secret opens the repository in every reachable state, and `SeedSafety.dfy` for
which new resources exactly; `RepositoryLaws.dfy`, `RemoteLaws.dfy` and `Credentials.dfy` prove the write-once,
deletion, conflict, readiness and credentials results, `PassLaws.dfy` how each phase of a pass ends, `Owners.dfy` whom
the Secret belongs to, `Lifecycle.dfy` exactly when the first passes lead to Ready, and
`Adoption.dfy` when an adopted repository can be opened. `Claims.dfy` proves that exactly one claimant wins.
`Rivals.dfy` and `RivalKeys.dfy` prove exactly what that is worth to the older of two resources whose passes interleave
on one account, `Fleets.dfy` the same for any number, and `RivalRuns.dfy` that two new resources of one name get to the
bad cases.

**Triggers and history.** `TriggerPass.dfy` and `TriggerRuns.dfy` prove that a trigger gets at most one Job over
every run of a namespace, on top of `JobNames.dfy`. `History.dfy`, `HistoryLog.dfy`, `HistoryTies.dfy`,
`HistoryIdempotence.dfy` and `ObservedRuns.dfy` prove what the ten-entry history shows of the unbounded log.

**Schedules.** `Schedule.dfy` compiles shorthands, `Cadence.dfy` reads cron expressions; `Phase.dfy` proves at
which minutes of all time they fire, `Migration.dfy` that migration keeps the cadence, `Jitter.dfy` how hashes
spread over slots.

**Scripts.** `Script.dfy` prints a spec, `Shell.dfy` is the token recognition of sections 2.2.1, 2.2.2 and 2.3 of
the POSIX.1-2017 Shell Command Language, and `ScriptMeaning.dfy` proves that the printed script runs the
intended commands, `Printing.dfy` what words these are. `ScriptParser.dfy` reads scripts, `Splitting.dfy` and
`LineReading.dfy` say what any script is read as, and `ReadBack.dfy`, `ArgsReading.dfy`, `SourceReading.dfy`
and `RoundTrip.dfy` prove exactly when that undoes the printer. `NormalForm.dfy` says what the normalizer keeps,
`Normalize.dfy` and `Parity.dfy` take a hand-written backup through `corg migrate` and `corg parity`,
`Detection.dfy` one that is read wrongly, and `HiddenQuotes.dfy` one that is read wrongly without a report.

`dafny verify dfyconfig.toml` checks everything.

Where a natural property is false of the code, the project proves the exact condition under which it holds:

- Progress to Ready: without faults, a resource with nothing recorded gets its Job if and only if it is not suspended,
  there is exactly one remote for it or it can be made, with restic format and a REST password, no older resource has
  it, no foreign Secret is in the way, and there is a password at hand, a seed, or an unused remote that is not adopted;
  and it gets ready afterwards if and only if that password is a key of the remote, or there is no key yet
  (`BecomesReadyExactly`, `SecretPhaseExactly`). However its calls end, its first pass leaves it without a Secret for
  good if and only if the pass gets to the ID and records it, there is neither password nor seed, and the Secret cannot
  be read, the remote has no REST password, the write of the Secret fails, or no password can be made up
  (`FirstPassSticksExactly`, `StuckForever`). The comment above `reconcileSecret` calls `known` "has completed a pass
  before"; the code sets it for a pass that failed half way, and the model follows the code.
- Key safety: for a remote that has keys already, a new resource without a Secret is safe if and only if its seed is one
  of them, or there is no seed and the remote shows some use (`SafeExactly`).
- Adoption: the rules for edits admit setting `existingRepositoryID` as long as no ID is recorded, even if a password
  was already written for another repository. After such an edit the Secret opens the adopted repository if and only
  if the password in force, the one in the Secret or else the seed, is one of its keys (`AdoptionOpensExactly`).
  `LockedOut` is a run from a new resource that ends locked out, with every edit admitted and every seed right.
- The conflict check: whatever happened before, the remote of the oldest of any number of resources is safe from the
  others if and only if none of them has recorded it or has a pass past the conflict check with it, since finalizing
  makes no such check, and the remote has keys or none of them has a pod or a running Job with credentials for it, since
  `restic init` makes none either (`ProtectedExactly` for two, `AllProtectedExactly` for any number). The oldest one's
  Secret keeps opening the remote if and only if that has keys or no such credentials have another password
  (`OpensExactly`, `AllOpensExactly`). From any two new resources of one name both failures can be reached, with
  truthful lists of Repositories (`NamesakesCollide`); the default name is the namespace.
- History: a run keeps the last completion time ever seen for it if no more than ten runs of the log started as late as
  it (`HistoryRefinesLog`), and otherwise it can be lost (`TieForgetsCompletion`).
- A trigger time with a fraction of a second comes up again after it was acknowledged, and one without never does
  (`AcknowledgedAgainExactly`).
- A trigger whose own Job is running is recorded as skipped exactly when another active run stands before that Job in
  the list (`OwnRunSkippedExactly`).
- Beside an active run, a trigger starts a second one that the CronJob would not start exactly when the concurrency
  policy is left out (`PoliciesAgreeExactly`).
- Two backups in a namespace share a manual Job exactly when both names are cut to the same stem (`ClashExactly`).
- `@monthly` and `@yearly` do not keep their cadence across hashes (`MonthlyCadenceExactly`,
  `YearlyCadenceExactly`).
- A cron range is read as its progression exactly if its step does not wrap around 64 bits into the values of the
  field (`ReadsRightExactly`).
- The parser undoes the printer exactly for clean sources (`RoundTripExactly`).
- Without newlines and single quotes in the texts, migrate and parity together accept a hand-written backup exactly if
  its sources are clean (`ParityExactly`). A path with one single quote, and no blank or other quote behind it, is never
  read back, and parity misses that if and only if the text before the quote ends in an ignored flag, as in
  `a --retry-lock=b'c`, does not start with a dash, and no exclude flag is in the path (`QuoteMissedExactly`): the
  normalizer erases the rest of the path with the flag.
- Migration turns an hour step that does not divide 24 into a schedule that the operator rejects
  (`MigrationKeepsCadence`).
- A settings edit is not always the smallest one: `RedundantOptionExactly` says which options could be left out.

## Model

| member | source | states |
|---|---|---|
| KeySafety.SecretAlwaysOpens | internal/controller/repository_controller.go:374-574 | over every run of a new resource, also one with a Secret left behind or a remote with keys, with passes cut short anywhere, lost writes, init pods, reinit, rotations and edits, the operator's Secret holds a key of the repository it leads to, and of the recorded one, as soon as there are keys |
| SeedSafety.SafeExactly | internal/controller/repository_controller.go:401-417 | for a new resource without a Secret that holds over all allowed runs if and only if the remote it is about has no keys, or the seed is one, or there is no seed and the remote shows some use |
| Credentials.CredentialsLeadHome | internal/controller/repository_controller.go:449-495 | in every state a new resource can get to, whatever users do, the Secret of an initialized resource leads to the recorded remote, and pods have the credentials of some remote |
| KeySafety.InitializedHasKeys | internal/controller/repository_controller.go:517-574 | in every reachable state a resource that says initialized has a remote with keys |
| KeySafety.PassStepKeeps | internal/controller/repository_controller.go:80-291 | every phase of a pass keeps the invariant behind key safety, whatever its calls return |
| KeySafety.OtherStepKeeps | internal/cli/repair.go:62-231 | pods, Jobs, reinit, rotation, edits and the rest of the account keep the invariant, as long as edits are right and the Secret is dropped only after the ID is recorded |
| KeySafety.WriteKeepsKeyring | internal/controller/repository_controller.go:460-495 | a Secret write, conflicting, failing or lost, keeps one password everywhere before there are keys, and only keys afterwards |
| KeySafety.ReadKeeps | internal/controller/repository_controller.go:390-422 | the password that a pass settles on is the one in use, or a key |
| KeySafety.FirstKeyKeeps | internal/controller/repository_controller.go:608-613 | restic init by any pod, however old, makes the one password that is everywhere the first key |
| KeySafety.RotateAddKeeps | internal/cli/repair.go:199-213 | restic key add keeps the invariant in the middle of passes and pods |
| KeySafety.RotatePatchKeeps | internal/cli/repair.go:215-223 | the patch without a resource version only ever puts a key into the Secret |
| KeySafety.EditKeeps | api/v1/repository_types.go:138-141 | an admitted edit that leaves the remote and has a right seed, or that comes before a password was written and is right itself, adoption included, keeps the invariant |
| KeySafety.ResolveKeeps | internal/controller/repository_controller.go:244-291 | resolving adopts, looks up, finds or adds the resource's own remote and no other |
| RepositoryLaws.PasswordIsWriteOnce | internal/controller/repository_controller.go:401-495 | no sequence of passes, however they end, changes a non-empty password |
| RepositoryLaws.RecordedNeverGenerates | internal/controller/repository_controller.go:160-202 | once an ID is recorded, no step of any later run makes up a password |
| RepositoryLaws.StuckForever | internal/controller/repository_controller.go:401-417 | recorded, without a password in the Secret and without a seed, is a state that no run leaves without a password from outside, and no pass writes the Secret in it |
| RepositoryLaws.OccupiedForever | internal/controller/repository_controller.go:470-475 | as long as a Secret without the operator's label has the name, no pass writes it or gets past it |
| Lifecycle.FirstPassSticksExactly | internal/controller/repository_controller.go:136-202 | a first pass of a resource with nothing recorded, however its calls end and on whatever remote, leaves a stuck resource if and only if it gets to the ID and records it, there is no seed and no password, and the Secret cannot be read, the remote has no REST password, the Secret write fails, or no password can be made up |
| RepositoryLaws.IDIsWriteOnce | internal/controller/repository_controller.go:187-198 | a recorded ID stays the same over every run, under all admitted edits |
| PassLaws.AdoptionStays | api/v1/repository_types.go:139 | over every run an ID that is set for adoption is never taken back or replaced, while the resource lives |
| PassLaws.RecordedNeverAdopts | api/v1/repository_types.go:140 | once an ID is recorded, over every run, it is settled whether it is an adopted one |
| RepositoryLaws.SteadyRun | internal/controller/repository_controller.go:157-242 | a pass never builds a status with another ID than the recorded one, in any reachable state |
| RepositoryLaws.ResolvedRemote | internal/controller/repository_controller.go:244-291 | resolving finds a remote of the account, and the recorded one if there is one |
| RemoteLaws.AdoptingNeverAdds | internal/controller/repository_controller.go:247-259 | a resource that adopts never makes a remote, under all admitted edits |
| RemoteLaws.AtMostOneOfAName | internal/controller/repository_controller.go:269-291 | over every run, also with lost status writes, adds under a name are at most one, plus one for each deletion by the finalizer |
| RemoteLaws.AddNeedsFreeName | internal/borgbase/client.go:162-186 | a remote is made only while no remote has the name |
| RemoteLaws.DeletesOnlyOwn | internal/controller/repository_controller.go:685-704 | a remote leaves the account only as the recorded one of a resource that is being deleted under the policy Delete |
| RemoteLaws.ReleasesLast | internal/controller/repository_controller.go:680-714 | the resource goes only after its remote was deleted or not found, or is retained, or was never recorded |
| RemoteLaws.FinalizableRun | internal/controller/repository_controller.go:88-97 | the conditions for the two deletion results hold in every reachable state |
| RemoteLaws.ContestedTouchesNothing | internal/controller/repository_controller.go:172-191 | a resource whose every pass ends in a conflict never edits or deletes a remote and writes no Secret or Job, even when it is deleted |
| RemoteLaws.ReadyIsSound | internal/controller/repository_controller.go:187-241 | over every run in which nobody drops the Secret or changes the remote, a pass sets Ready only on an initialized resource with both Secret values present and leading to the remote, and with nothing left to edit |
| RemoteLaws.SecretSettles | internal/controller/repository_controller.go:460-515 | writing the same Secret a second time is no write |
| Lifecycle.FreshIsOrderly | internal/controller/repository_controller.go:80-118 | a new resource meets the conditions that the laws start from |
| Lifecycle.BecomesReadyExactly | internal/controller/repository_controller.go:157-242 | without faults, a resource with nothing recorded, adopting, seeded or neither, gets its Job if and only if it is not suspended, there is one usable remote for it that nobody older has, and the Secret can be written; after the Job another pass ends with Ready if and only if the password is a key or there was none; without a Job nothing is written |
| SeedSafety.ReadyAnswers | internal/controller/repository_controller.go:300-303 | there are answers to those passes, with lists that hold the resource itself |
| Lifecycle.SecretPhaseExactly | internal/controller/repository_controller.go:390-447 | faultless phases get past the Secret if and only if it is not foreign and there is a password in it, a seed, or nothing provisioned, and leave everything as it is otherwise |
| Adoption.AdoptionOpensExactly | api/v1/repository_types.go:139-140 | after an admitted edit that adopts and a faultless pass, the Secret opens the repository if and only if the password in it before, or the seed if there was none, is one of its keys |
| Adoption.LateAdoptionLocksOut | internal/controller/repository_controller.go:191-202 | a first pass cut off before its status write, an admitted edit that adopts with a right seed, and a faultless pass end with a Secret that does not open what it leads to |
| Adoption.LockedOut | api/v1/repository_types.go:138-140 | such a run from a new resource exists: two passes with truthful lists, the first without its end, and one admitted edit whose seed is a key |
| Rivals.OlderIsProtected | internal/controller/repository_controller.go:172-185 | over every interleaving of two resources on one account, as long as the older one holds a remote, a younger one that has not recorded it, whose pass has not got past the conflict check with it, and whose credentials can make no first key never edits, opens or deletes it |
| Rivals.ProtectedExactly | internal/controller/repository_controller.go:680-714 | after any history, also in the middle of passes, the older one's remote is protected over all runs if and only if the younger one has not recorded it and has no pass past the conflict check with it, and the remote has keys or the younger one has no pods and no running Job with credentials for it, even if its REST password has been changed since, for it may be changed back |
| Fleets.AllProtectedExactly | internal/controller/repository_controller.go:293-336 | the same for any number of younger resources: protected from all if and only if each is harmless |
| RivalKeys.OlderAlwaysOpens | internal/controller/repository_controller.go:293-336 | over the same interleavings the older one's Secret keeps opening its repository |
| RivalKeys.OpensExactly | internal/controller/repository_controller.go:601-615 | from any history of the younger one, a new older one and a run that spares it, the older one's Secret keeps opening its remote, as long as that is there, if and only if the remote has keys or all credentials the younger one has for it are the same password |
| Fleets.AllOpensExactly | internal/controller/repository_controller.go:601-615 | the same for any number of younger resources |
| RivalRuns.YoungerRecordsFirst | internal/controller/repository_controller.go:269-276 | of two new resources of one name with truthful lists, a pass of the younger one records the remote of that name, one of the older one does too, and then the remote is not protected |
| RivalRuns.YoungerInitsFirst | internal/controller/repository_controller.go:187-202 | if the younger one's pass is cut off before it records anything, its Job can still lock the older one out |
| RivalRuns.NamesakesCollide | internal/borgbase/client.go:162-186 | from any two new resources whose name nothing in the account has, both runs exist |
| Lifecycle.SettleWorks | internal/controller/repository_controller.go:338-372 | unless an older resource in the list has the remote, it matches the settings afterwards, and its identity stays |
| Repository.EditExactly | internal/controller/repository_controller.go:361-372 | an edit takes effect unless it was rejected, and is done if and only if the call said no error |
| Repository.SyncSettles | internal/controller/repository_controller.go:497-515 | syncing makes the wanted controller the controller, keeps all other owners in order, and is idempotent |
| Owners.WrittenIsOwned | internal/controller/repository_controller.go:438-515 | a write of the Secret that ends well or changes it leaves it with this Repository as its controller under Delete, with no controller under Retain, whatever controlled it before, and with all its other owners |
| Owners.SecretIsOwned | internal/controller/repository_controller.go:438-515 | over every run a pass that gets past the Secret finds it gone or controlled, and then by this Repository, if and only if the policy it read is Delete |
| Owners.ControllerExactly | internal/controller/repository_controller.go:497-505 | the controller is the first owner that says so, and there is none if no owner does |
| Owners.OthersExactly | internal/controller/repository_controller.go:507-515 | the other owners are those that are no controllers, in their order |
| Repository.FailedJobIsReplaced | internal/controller/repository_controller.go:523-574 | an init Job at work is left alone; a failed one is deleted when a retry is due and the next pass starts a new one |
| Repository.InitializeExactly | internal/controller/repository_controller.go:517-574 | the phase is done if and only if the resource was initialized and its Job is gone, or its Job says so now; only a finished Job or one due for a retry is removed |
| Repository.PatchMerges | internal/controller/repository_controller.go:775-783 | a status patch writes what the pass changed, keeps what others wrote, and can be repeated |
| Repository.ListedIsThere | internal/borgbase/client.go:172-186 | what is found by name is in the account, and a name that is not found is free |
| Reconciler.RepositoryReconciler.Reconcile | internal/controller/repository_controller.go:80-155 | a whole pass, on objects that change in place, is a run of the state machine, for every outcome of its calls |
| Reconciler.RepositoryReconciler.ReconcileRepository | internal/controller/repository_controller.go:157-242 | reconcile is the sequence of the phases, with every early return |
| Reconciler.RepositoryReconciler.ReconcileLive | internal/controller/repository_controller.go:107-154 | suspension and a missing token end the pass with the status written |
| Reconciler.RepositoryReconciler.ReconcileDeleting | internal/controller/repository_controller.go:88-97 | a failed finalize still writes the status |
| Reconciler.RepositoryReconciler.ResolveRepo | internal/controller/repository_controller.go:244-291 | account, status and result are those of the resolving phase |
| Reconciler.RepositoryReconciler.FindOrAdd | internal/controller/repository_controller.go:269-291 | adds only when nothing is found, and gives the one that is found |
| Reconciler.RepositoryReconciler.ReconcileSettings | internal/controller/repository_controller.go:338-372 | the options built step by step are the specified edit, and are sent only if there are any |
| Reconciler.RepositoryReconciler.SettleSettings | internal/controller/repository_controller.go:167-198 | format, conflict and settings come before the ID goes into the status |
| Reconciler.RepositoryReconciler.PickPassword | internal/controller/repository_controller.go:401-422 | the order existing, seed, refusal, generated |
| Reconciler.RepositoryReconciler.ReconcileSecret | internal/controller/repository_controller.go:382-458 | reading and writing the Secret are the two phases of the machine, and a Secret that is settled is controlled by this Repository under Delete and by nothing under Retain |
| Reconciler.RepositoryReconciler.CreateOrPatchSecret | internal/controller/repository_controller.go:460-495 | new Secret, version and success are those of the specified write, with conflict and no-op |
| Reconciler.RepositoryReconciler.ReconcileInitJob | internal/controller/repository_controller.go:517-574 | Job, status and outcome are those of the specified step |
| Reconciler.RepositoryReconciler.FinishReconcile | internal/controller/repository_controller.go:204-241 | Ready is set exactly when the init phase is done |
| Reconciler.RepositoryReconciler.FinalizeRepository | internal/controller/repository_controller.go:680-714 | deletes by policy and recorded ID, then lets the resource go |
| Reconciler.RepositoryReconciler.PatchLiveStatus | internal/controller/repository_controller.go:775-783 | the live status gets what changed against the copy that was read |
| Reconciler.PassedIsRun | internal/controller/repository_controller.go:157-242 | the composed phases are a run of the machine |
| PassLaws.BeginExactly | internal/controller/repository_controller.go:80-133 | when a pass goes on to the account, when it ends at once, and when it finalizes |
| PassLaws.PasswordExactly | internal/controller/repository_controller.go:382-417 | which password a pass goes on with, and that a new one is made up only if nothing says that there was one before |
| PassLaws.FinalizeExactly | internal/controller/repository_controller.go:680-709 | the remote is let go if and only if it is retained, none was recorded, or its deletion said no error |
| PassLaws.ReleaseExactly | internal/controller/repository_controller.go:711-714 | the resource goes with its finalizer, and an error there leads to one more status write |
| Repair.RunReinit | internal/cli/repair.go:62-90 | deletes the Job, then clears initialized; stops at the first failure |
| PassLaws.RotatePatchExactly | internal/cli/repair.go:215-223 | the patch of a rotation puts the new password into the Secret and changes nothing else |
| Repair.RunRotatePassword | internal/cli/repair.go:148-231 | adds the key before the Secret is patched, as a run of the machine; success means the new password is in the Secret and a key |
| Repair.RotationIsSafe | internal/cli/repair.go:99-112 | wherever a rotation stops, all old keys still work, at most the new one was added, and the Secret holds one that works |
| Repair.RotationExactly | internal/cli/repair.go:148-231 | a rotation gets its password into the Secret if and only if the resource is initialized, the Secret opens what it leads to, the key is added and the patch takes effect; then the remote has both |
| BorgBase.SettingsConverge | internal/controller/repository_controller.go:341-372 | an edit is sent if and only if the remote does not match the spec, makes it match, leaves the rest alone, and sends quota with its switch or not at all |
| BorgBase.RedundantOptionExactly | internal/controller/repository_controller.go:341-363 | an edit is not always the smallest one: which of its options the remote would match without, both ways, for each option |
| BorgBase.FindByName | internal/borgbase/client.go:172-186 | the loop with its early exit finds one, none or many by exact name |
| BorgBase.LookupExactly | internal/borgbase/client.go:172-186 | found if and only if it is the only one with the name, not found if and only if there is none |
| BorgBase.LeadsToOne | internal/borgbase/types.go:55-69 | a restic URL leads to one repository only |
| BorgBase.UrlLeadsHome | internal/borgbase/types.go:59-69 | the URL of a repository is not empty and leads to it |
| BorgBase.UrlExactly | internal/borgbase/types.go:59-69 | a URL is made if and only if the format is restic and there is a password, and then reads in one way only: the ID as user, the password, and the host of the ID |
| Claims.RepositoryConflict | internal/controller/repository_controller.go:293-319 | reports a rival if and only if the list has another live claimant of the ID that was created earlier, or at the same time with the smaller namespace, or then the smaller name |
| Claims.ConflictExactly | internal/controller/repository_controller.go:293-336 | a conflict is reported if and only if another live resource manages the ID and was created earlier, or at the same time with the smaller namespace, or in the same namespace with the smaller name |
| Claims.LessExactly | internal/controller/repository_controller.go:328-336 | names are compared by their first different character, and a proper prefix is the smaller one |
| Claims.OlderRepositoryOrders | internal/controller/repository_controller.go:328-336 | a strict total order of resources |
| Claims.UniqueWinner | internal/controller/repository_controller.go:293-336 | of any live claimants of a repository exactly one sees no conflict, and none of them was created before it |
| Claims.ConflictIgnoresOrder | internal/controller/repository_controller.go:305-318 | the order of the list and other resources do not matter |
| Claims.SlugConflict | internal/controller/scheduledbackup_controller.go:232-259 | reports a rival if and only if the namespace has another live backup with the slug that was created earlier, or at the same time with the smaller name |
| Claims.SlugConflictExactly | internal/controller/scheduledbackup_controller.go:230-266 | the same for slugs: the rival is live, reports the slug, and is older or as old with the smaller name |
| Claims.OlderThanOrders | internal/controller/scheduledbackup_controller.go:261-266 | a strict total order of the backups of a namespace |
| Claims.UniqueSlugWinner | internal/controller/scheduledbackup_controller.go:232-266 | of any live backups that report one slug exactly one sees no conflict, and none of them was created before it |
| Claims.SlugConflictIgnoresOrder | internal/controller/scheduledbackup_controller.go:245-258 | the order of the list and other backups do not matter |
| JobNames.SameJobNameExactly | internal/backup/cronjob.go:61-71 | two triggers share a Job name if and only if they share the second and the cut name |
| JobNames.ClashExactly | internal/backup/cronjob.go:61-71 | different backups clash in a second if and only if both names reach the limit and agree up to it |
| JobNames.ManualJobName | internal/backup/cronjob.go:61-71 | a name has at most 52 characters, for every 64-bit time |
| JobNames.JobNameExactly | internal/backup/cronjob.go:61-71 | a name is as much of the backup's as 52 characters allow, a mark, and the time, which the digits give back |
| TriggerPass.JobStore.ReconcileTrigger | internal/controller/trigger.go:23-81 | Jobs, status and error are those of the specified trigger, for every outcome of the create call |
| TriggerPass.IgnoredExactly | internal/controller/trigger.go:29-43 | a trigger counts if and only if it can be read and is later than what was acknowledged; any other changes nothing |
| TriggerPass.StartedExactly | internal/controller/trigger.go:57-79 | one that counts and is not skipped makes its own Job, which will be observed as a manual run at work, unless there is one of that name; it touches no other Job, and is recorded if and only if the call said no error |
| TriggerPass.JobStore.Create | internal/controller/trigger.go:66-76 | creates, finds the name taken, or fails, with or without effect |
| TriggerPass.BlockedExactly | internal/controller/trigger.go:47-56 | a trigger is skipped if and only if the policy is an explicit Forbid and the first active run is not its own |
| TriggerPass.OwnRunSkippedExactly | internal/controller/trigger.go:47-56 | with its own Job active, it is skipped if and only if another active run stands before it |
| TriggerPass.OwnRunNeverBlocks | internal/controller/trigger.go:45-80 | with its own Job the only active run, a trigger is recorded with that Job |
| TriggerPass.PoliciesAgreeExactly | internal/controller/trigger.go:47-80 | with another run active and a CronJob that forbids overlap, a trigger is recorded with a Job, and starts it, if and only if the policy was left out |
| TriggerPass.CronJobPolicyExactly | internal/backup/cronjob.go:254-259 | a CronJob forbids runs beside each other unless the spec says otherwise |
| TriggerPass.AcknowledgedAgainExactly | internal/controller/trigger.go:41-43 | an acknowledged trigger comes up again if and only if its time has a fraction of a second |
| TriggerRuns.AtMostOnce | internal/controller/trigger.go:29-80 | over every run of a namespace a trigger gets at most one Job, plus one for each removed before it was acknowledged |
| TriggerRuns.AcknowledgedCreatesNone | internal/controller/trigger.go:41-43 | an acknowledged or older time never creates a Job again, even after its Job is gone |
| TriggerRuns.AckedForever | internal/controller/trigger.go:41-80 | acknowledged stays acknowledged over every run |
| TriggerRuns.RetriesCreateNone | internal/controller/trigger.go:66-76 | while its Job stays, retries of a trigger create none |
| TriggerRuns.TimeGrows | internal/controller/trigger.go:52-80 | when LastTriggerTime changes it gets later |
| TriggerRuns.ForbidRespected | internal/controller/trigger.go:45-56 | under Forbid an undisturbed pass creates a Job only if no run of the backup was active |
| TriggerRuns.ForbidAtListing | internal/controller/trigger.go:47-56 | with steps in between: no run was active when the Jobs were listed, or the trigger's own came first and is gone |
| TriggerRuns.RecordedJobIsOwn | internal/controller/trigger.go:70-80 | a recorded Job exists and belongs to the backup, unless another name in the namespace clashes |
| TriggerRuns.TraceableRun | internal/backup/cronjob.go:73-97 | in every reachable state a Job with a manual name belongs to a backup with that name |
| TriggerRuns.PassInOnePiece | internal/controller/scheduledbackup_controller.go:177-187 | listing, trigger and status write in a row are the specified trigger |
| TriggerRuns.PatchedExactly | internal/controller/scheduledbackup_controller.go:268-276 | the status write keeps what the pass did not change, and brings a changed time back to the second |
| TriggerRuns.ListExactly | internal/controller/trigger.go:97-119 | a pass begins with all Jobs of the namespace as they are now, and takes the runs of its own backup |
| ObservedRuns.ObserveRuns | internal/controller/trigger.go:97-119 | the loop and the sort give the specified runs, each of which tells of a Job of the backup, and each such Job has one |
| ObservedRuns.ObservedExactly | internal/controller/trigger.go:97-146 | observed are exactly the Jobs of the backup and its CronJob, newest first, with start times and distinct names |
| ObservedRuns.RunsTell | internal/controller/trigger.go:100-152 | every run tells name, times, trigger, result and activity of a Job of the backup, Succeeded if and only if something succeeded and Failed if and only if nothing did and something failed, and every such Job has a run |
| ObservedRuns.NewestComeFirst | internal/controller/trigger.go:115-117 | start times do not increase along the list |
| ObservedRuns.ActiveRun | internal/controller/trigger.go:88-95 | the loop gives the first active run |
| ObservedRuns.FirstActiveExactly | internal/controller/trigger.go:88-95 | empty without active runs, otherwise the active run with none before it |
| ObservedRuns.HistorySettles | internal/controller/scheduledbackup_controller.go:177-181 | observing the same Jobs again does not change the history |
| History.MergeHistory | internal/controller/trigger.go:153-177 | the loops over merged and seen, the stable sort and the cut give the specified history |
| History.LimitExactly | internal/controller/trigger.go:170-175 | of all runs in order the first ten are kept, or all if there are fewer |
| History.SortIsStable | internal/controller/trigger.go:170-172 | runs with the same start time keep their order |
| History.SortLaws | internal/controller/trigger.go:170-172 | sorting permutes and puts the newest first |
| History.NewerExactly | internal/controller/trigger.go:189-199 | a run is newer than another if and only if it has a start time and the other one started earlier or not yet |
| History.MostCompleteExactly | internal/controller/trigger.go:179-187 | what is observed stands, and only missing times are taken from the record |
| History.MergeParts | internal/controller/trigger.go:157-168 | a merge is the observed runs, completed from the history, followed by the unobserved ones |
| HistoryLog.HistoryRefinesLog | internal/controller/trigger.go:153-187 | for all start times, folding any observations gives ten of the newest runs ever seen, newest first, each as it was last seen, with any completion time ever seen if at most ten runs of the log started as late as it |
| HistoryLog.DistinctStartsAreExact | internal/controller/trigger.go:153-187 | without equal start times it is exactly the ten newest runs of the log, as the log has them |
| HistoryLog.LastingCompletionsAreExact | internal/controller/trigger.go:121-146 | and so it is, whatever the start times, when observed completion times do not disappear again |
| HistoryTies.TieForgetsCompletion | internal/controller/trigger.go:170-176 | eleven runs that started together, observed twice, lose a completion time |
| HistoryLog.LogMeaning | internal/controller/trigger.go:179-187 | the unbounded log has for each name its last observation and last completion time |
| HistoryLog.NewestIsUnique | internal/controller/trigger.go:170-176 | without equal start times, being the newest runs of a log determines the list |
| HistoryIdempotence.MergeIsIdempotent | internal/controller/trigger.go:153-199 | merging the same observation again returns the same list, ties and cut included |
| HistoryIdempotence.SortConcat | internal/controller/trigger.go:170-172 | a stable sort of two lists is the stable merge of their sorts |
| Phase.EveryIsEven | internal/backup/schedule.go:57-96 | an accepted `@every d` fires at a minute of all time if and only if it is congruent to the hash modulo d |
| Phase.AcceptedExactly | internal/backup/schedule.go:57-96 | a duration is accepted if and only if it is whole minutes dividing an hour or whole hours dividing a day |
| Phase.RefusedExactly | internal/backup/schedule.go:57-96 | for every refused duration which error it gets, in nanoseconds |
| Schedule.PlainExactly | internal/backup/schedule.go:12-23 | a schedule that is no shorthand is taken as it is if and only if it has five fields, and otherwise it says how many it has |
| Phase.HourlyInPhase | internal/backup/schedule.go:30-31 | `@hourly` fires every 60 minutes, in phase with the hash |
| Phase.DailyInPhase | internal/backup/schedule.go:32-33 | `@daily` and `@midnight` fire every 1440 minutes, in phase with the hash |
| Phase.WeeklyInPhase | internal/backup/schedule.go:34-35 | `@weekly` fires every 10080 minutes, in phase with the hash |
| Phase.EvenlySpacedExactly | internal/backup/schedule.go:48-56 | a stepped field is evenly spaced for all time if and only if the step divides the period |
| Cadence.FieldMatcher | internal/cli/cadence.go:77-120 | the loops over parts and values, in 64-bit arithmetic, collect exactly what the range of some part has, or fail at the first bad part |
| Cadence.FieldExactly | internal/cli/cadence.go:80-117 | a field is read if and only if all its parts are, and then allows a value if and only if the range of some part has it |
| Cadence.CommaIsUnion | internal/cli/cadence.go:80-117 | a field with a comma allows what either side allows |
| Cadence.PartMeans | internal/cli/cadence.go:80-117 | a part with an ordinary step allows its lower bound and every step from it up to its upper bound |
| Cadence.PartReads | internal/cli/cadence.go:80-117 | how base, bounds and step of a part are written, and when they are no numbers |
| Cadence.MatchersExactly | internal/cli/cadence.go:41-55 | an expression is read if and only if it has five fields whose parts are all in the bounds of their field |
| Cadence.MatchersMean | internal/cli/cadence.go:41-55 | and then each field allows what its own parts do |
| Cadence.ReadsRightExactly | internal/cli/cadence.go:114-116 | a range allows exactly its progression if and only if its step does not wrap around into the values of the field |
| Cadence.CadenceOf | internal/cli/cadence.go:41-75 | expansion, gaps and sort give the specified cadence |
| Cadence.Expand | internal/cli/cadence.go:57-67 | the minutes of the window at which all five fields match, in order |
| Cadence.FiredExactly | internal/cli/cadence.go:57-67 | the expansion has exactly the minutes at which the expression fires, in order |
| Cadence.CalendarGoesOn | internal/cli/cadence.go:57-67 | from Monday 5 January on, weekday, day and month go on at each midnight and not in between |
| Cadence.SameCadenceExactly | internal/cli/cadence.go:57-75 | two expressions have the same cadence if and only if they fire equally often in the 28 days with the same distances, in whatever order |
| CronReading.SteppedField | internal/cli/cadence.go:91-116 | the emitted `a-b/n` is in range and means the progression |
| Migration.MigrationKeepsCadence | internal/cli/migrate.go:321-345 | for every valid cron expression and hash, the migrated schedule has the same cadence, or is rejected, and that if and only if it is rewritten from an hour step that does not divide 24 |
| Migration.ShorthandExactly | internal/cli/migrate.go:321-345 | which expressions become a shorthand, and which one |
| Migration.ResidueCadence | internal/cli/cadence.go:60-74 | firing at one residue gives the even cadence, whatever the phase |
| Migration.EveryHoursResolves | internal/backup/schedule.go:79-91 | `@every nh` from a migration resolves if and only if n divides 24 |
| Jitter.SameExpressionExactly | internal/backup/schedule.go:25-40 | two hashes compile to the same expression if and only if they are congruent modulo the number of slots |
| Jitter.SameStepExactly | internal/backup/schedule.go:66-91 | the same for `@every d` and its period |
| Jitter.ShorthandResolvesExactly | internal/backup/schedule.go:25-96 | a shorthand is accepted, for every hash, if and only if it is a known name or an `@every` with an accepted duration |
| Jitter.UnknownExactly | internal/backup/schedule.go:29-45 | a shorthand is called unknown if and only if it is no known name and does not start with @every |
| Jitter.SameSlotExactly | internal/backup/schedule.go:25-91 | for every accepted shorthand, named or `@every d`, two hashes get the same schedule if and only if they are congruent modulo its number of slots |
| Jitter.SharingIsQuotient | internal/backup/schedule.go:98-102 | how many hashes below a bound share a slot, for every accepted shorthand |
| Jitter.JitterIsBalanced | internal/backup/schedule.go:25-91 | for every accepted shorthand and any bound the numbers of hashes per slot differ by at most one |
| Jitter.MonthlyCadenceExactly | internal/cli/cadence.go:57-67 | what `@monthly` resolves to fires once in the window, and not at all if and only if its day is 2, 3 or 4 |
| Jitter.YearlyCadenceExactly | internal/cli/cadence.go:57-67 | what `@yearly` or `@annually` resolves to fires in the window if and only if its day and month lie in it |
| Shell.QuotedIsOneWord | internal/backup/script.go:122-133 | a POSIX shell reads a quoted string as one word with exactly its value, for all strings |
| Shell.LexCommandLine | internal/backup/script.go:56-94 | a printed command, across its continuation lines, is read as its words |
| ScriptMeaning.ScriptRunsIntendedCommands | internal/backup/script.go:17-120 | after the preamble a shell runs exactly the intended argument lists, in order, for all paths, excludes and databases |
| ScriptMeaning.SourceLexes | internal/backup/script.go:56-94 | the text of one source is one command with the intended arguments |
| Printing.FilesExactly | internal/backup/script.go:56-72 | the argument list of a files source: the tag and path with their defaults, the retry lock if it is positive, and one flag for each exclude |
| Printing.DumpExactly | internal/backup/script.go:74-89 | that of a database source: engine, mounted secret, database and further words |
| Printing.ForgetExactly | internal/backup/script.go:96-120 | snapshots are forgotten, with a prune, if and only if some unit is set, and the flags are those of exactly the units that are |
| Printing.ScriptFrame | internal/backup/script.go:11-48 | whatever it backs up, a script starts with the preamble and ends with the cache cleanup, and is refused if and only if it has a source of an unknown type and no text of its own |
| Printing.VerbatimScript | internal/backup/script.go:22-28 | a text of one's own runs as it is, but for newlines at its end |
| Printing.UnknownExactly | internal/backup/script.go:30-37 | the error names the first unknown type |
| Backup.Defaults | api/v1/scheduledbackup_types.go:81-97 | the tag is files or db and the path a dot where a source leaves them open |
| Script.Render | internal/backup/script.go:17-47 | the builder ends with the specified text, or the first unknown source type |
| Script.RenderSource | internal/backup/script.go:56-94 | text or error of one source |
| Script.RenderFiles | internal/backup/script.go:60-72 | a files source, with its excludes on continuation lines |
| Script.RenderDump | internal/backup/script.go:74-89 | a database source, with database and extra arguments |
| Script.RenderForget | internal/backup/script.go:96-120 | the forget line from the units that are set |
| ScriptParser.SplitArgs | internal/cli/helmrelease.go:128-160 | the loop over characters splits as specified |
| ScriptParser.JoinContinuations | internal/cli/helmrelease.go:192-213 | the loop over lines joins as specified |
| ScriptParser.ParseRetention | internal/cli/migrate.go:295-319 | the loop over units, in any order, gives the retention, nothing, or an error |
| ScriptParser.ParseBackupScript | internal/cli/migrate.go:202-235 | the loop over lines collects sources, retention and the last engine |
| Splitting.ArgsExactly | internal/cli/helmrelease.go:128-160 | for every line, the loop over characters reads it word by word, with quotes of both kinds and open ones |
| Splitting.LogicalLinesExactly | internal/cli/helmrelease.go:192-220 | for every script, the loop over lines reads it group by group, and drops blank ones |
| LineReading.FlagExactly | internal/cli/helmrelease.go:162-170 | the value of a flag is what follows it in the first argument that has it |
| LineReading.DumpdbExactly | internal/cli/migrate.go:273-286 | the engine is the argument behind the first dumpdb that has one, and an error names any other word there |
| LineReading.BackupLineExactly | internal/cli/migrate.go:237-271 | what any arguments are read as, and that files are refused if and only if not every exclude flag starts an argument |
| LineReading.RetentionExactly | internal/cli/migrate.go:295-320 | each unit is read from its own flag, with an error if and only if some flag is no 32-bit number |
| LineReading.ScriptExactly | internal/cli/migrate.go:202-235 | a script is read if and only if all its backup and forget lines are: all sources in order, the retention of the last forget, none included, and the engine of the last dump |
| ReadBack.ArgsOfLine | internal/cli/helmrelease.go:128-160 | a printed line splits into its values if they have no single quote |
| ReadBack.JoinCommand | internal/cli/helmrelease.go:192-213 | a command over several lines joins into one |
| ArgsReading.FilesRead | internal/cli/migrate.go:237-271 | what is read from the arguments of a files source: the source, or exactly the exclude-count error |
| ArgsReading.DumpRead | internal/cli/migrate.go:243-293 | what is read from the arguments of a database source |
| ArgsReading.ForgetRead | internal/cli/migrate.go:295-319 | a printed retention is read back |
| SourceReading.SourceReadExactly | internal/cli/migrate.go:237-293 | a printed source is read back if and only if it is clean |
| RoundTrip.RoundTripExactly | internal/cli/migrate.go:202-319 | parsing a printed spec returns its sources up to effective tag and path, its retention and its last engine, if and only if every source is clean |
| RoundTrip.LogicalScript | internal/cli/helmrelease.go:192-213 | the logical lines of a printed script |
| RoundTrip.ReadSourcesOneLine | internal/cli/migrate.go:202-235 | nothing that is ever read has a newline in it |
| Normalize.NormalizeScript | internal/cli/develop.go:305-320 | the loop gives the specified normal form |
| NormalForm.StripExactly | internal/cli/develop.go:303-309 | text in front of the first ignored flag stays as it is |
| NormalForm.StripFlag | internal/cli/develop.go:303-309 | an ignored flag is dropped with its whole value |
| NormalForm.ExcludeBlanks | internal/cli/develop.go:311-314 | blanks behind an exclude line, as a dropped flag leaves them, make no difference |
| NormalForm.PlainLineStays | internal/cli/develop.go:305-320 | a line without ignored flag and exclude is its own normal form, but for indentation and a line break |
| Normalize.ExcludeQuotingErased | internal/cli/develop.go:311-314 | quoted and bare excludes have the same normal form |
| Normalize.LockErased | internal/cli/develop.go:303-309 | the retry lock does not show in the normal form |
| Normalize.MountErased | internal/cli/develop.go:303-309 | the secret mount does not show in the normal form |
| Parity.HandScriptReads | internal/cli/migrate.go:202-235 | a hand-written script, with bare or quoted excludes, is read as the spec it stands for |
| Parity.ScriptsNormalizeAlike | internal/cli/develop.go:305-320 | the hand-written and the generated script have the same normal form |
| Parity.Judge | internal/cli/develop.go:203-232 | script, cadence and time zone are each reported if and only if they differ, and the move if and only if only the expressions do |
| Parity.ComparePlans | internal/cli/develop.go:205-232 | the report, or the schedule that cannot be read |
| Parity.RunParity | internal/cli/develop.go:192-259 | the report for a generated resource and the original |
| Parity.ReportExactly | internal/cli/develop.go:192-259 | the script, the cadence and the time zone are reported each if and only if they differ, and the schedule as moved if and only if the cadences agree and the expressions do not |
| Parity.MigrateThenParity | internal/cli/develop.go:192-320 | for every supported hand-written backup with a valid schedule, migrating it and comparing reports no difference in script, cadence or time zone, unless the schedule has an hour step that is rejected |
| Detection.UncleanIsFound | internal/cli/develop.go:192-259 | without newlines and single quotes, a backup with a source that would be read as another one is refused by migrate, or parity reports that the scripts differ |
| Detection.ParityExactly | internal/cli/develop.go:192-320 | for such backups and a schedule that resolves, migrate accepts and parity reports nothing if and only if every source is clean |
| HiddenQuotes.QuoteMissedExactly | internal/cli/develop.go:303-320 | for a path with one single quote, and no blank or other quote behind it, migrate accepts and parity reports nothing if and only if the text before the quote ends in an ignored flag, no dash is in front and no exclude flag in the path; the path that is read is always another one |
| HiddenQuotes.QuoteIsMissed | internal/cli/develop.go:303-320 | so it is for such paths made of letters |

## Left out

- KeySafety.SecretAlwaysOpens: assumes that seeds are keys or set before there are any, that a remote with keys that is found by name has a seed or shows some use until its ID is recorded, that an edit turns to another remote only before a password is written, that unused keys only are removed, and that nothing changes the Secret from outside except its deletion once the ID is recorded; SafeExactly, AdoptionOpensExactly and LockedOut show what the assumptions are for.
- KeySafety.FirstKeyKeeps: restic init is one atomic step; two inits that race inside restic are not modelled.
- TriggerRuns.ForbidRespected: is about passes without other steps in between; ForbidAtListing is the statement for all runs.
- Rivals.ProtectedExactly: the younger one's lists show the older one as it is, the younger one still exists, and nobody removes the last key of the remote while the younger one has credentials for it; so in AllProtectedExactly.
- RivalKeys.OpensExactly: no pass of the younger one is past the conflict check with the remote; so in AllOpensExactly.
- Detection.ParityExactly: texts with newlines or single quotes; of those only one quote in the path of a backup of one directory is settled, by QuoteMissedExactly.
- RoundTrip.RoundTripExactly: the extra arguments of a database source are shell-safe words, since the printer does not quote them.
- Phase.EveryIsEven: time.ParseDuration is a parameter; only the migration results ask that it reads whole hours.
- JobNames.ManualJobName: characters stand for bytes, which resource names allow.
- Jitter.JitterIsBalanced: the FNV hash is an arbitrary natural number.
- Reads of Repositories, ScheduledBackups and Jobs from a cache that lags behind; reads are live, as those of Secrets are.
- Edits of `secretName`, and resources that are deleted and created again under the same name while their Jobs and pods go on.
- Day-of-month and day-of-week are both required in cadences, as in the code; cron itself takes either.
- Strings are sequences of characters; invalid UTF-8 and byte lengths of other characters are not modelled.
- Specs with a script of their own: what they run is up to their text. VerbatimScript says how they are printed, and the other results leave them out.
- The shell preamble, a process substitution outside the POSIX grammar, is printed and parsed but not lexed.
- HTTP, GraphQL, JSON, Kubernetes plumbing, events, log texts, requeue delays and condition messages.
- Pod templates, healthchecks wiring, cache volumes and the CronJob update: copying of fields.
- The commands with no state or arithmetic of their own: status, get, doctor, env, exec, restore.
