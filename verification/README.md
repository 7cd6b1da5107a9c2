# nebula-control-plane: a verified model

Dafny models of the parts of the control plane that keep promises across many steps, failures or unbounded
inputs, and proofs of those promises.  `dafny verify dfyconfig.toml` checks everything.

| module | what it models |
|---|---|
| `CaLifecycle`, `CaRegistry`, `CaDependents` | the certificate-authority registry: the table and its atomic writes, the operations over it, and the loops that count dependents and adoption |
| `DrainSafety`, `DrainRules` | retiring a CA while signers, enrollments, renewals, heartbeats and the reaper run beside it, each cut at its reads and writes; and the runs that need each rule of operation |
| `KeyDeletion` | scheduling and cancelling the deletion of a CA's key, interleaved, with failing and silent backends and dying processes |
| `TrustFile`, `ConfigTrust`, `ConfigSigner` | config-key trust: the host's trust file, bundles assembled from the key registry, and the signer that follows it |
| `Collect`, `CollectRuns` | claiming, processing, shipping and acking enrollment candidates across an unreliable network |
| `GatewayHealth` | throttled health writes against the console's time-based verdict |
| `Wildcards`, `CloudTrust` | the greedy `*` matcher, the glob-to-LIKE translator, and cloud-trust matching built on them |
| `Groups`, `Regroup`, `RegroupRuns` | group sets, bulk re-grouping under optimistic concurrency, and renewals that turn desired groups into issued ones |
| `Pagination` | keyset pagination over a table that changes between queries |
| `Sntp` | timestamp conversion and the clock check (sections 3 and 5 of RFC 4330) |
| `Text` | trimming, case folding and string order shared by the others |

A class models what the source updates in place, with methods proved against functions of the old state.
Concurrency is a relation `Step(world, action, world')` whose actions are the source's individual reads and
writes; theorems range over every finite run, so over every interleaving at that grain.

## Where the source falls short of a promise

Each has a lemma that exhibits it and a theorem giving the condition under which the promise does hold.

- The count behind a retire is called race-safe because a draining CA gains no new leaves
  (`internal/ca/ca.go:206-211`).  It does: a signer or a reconcile may lag behind the cut-over, and a leaf may be
  signed and not yet recorded.  The count itself misses a host whose renewal is recorded and not delivered, whose
  answer is lost, which renews without a heartbeat row, whose late heartbeat reports a replaced leaf, or whose
  heartbeat after a renewal reports no expiry.  These are the nine rules of `DrainSafety.Rule`.  Under all of them no host ever holds an unexpired leaf of a retired CA
  (`DrainSafety.RetiredStrandsNobody`); for each there is a run from the start that breaks it alone and strands a
  host (`DrainRules`).  With no rules at all, a retired CA can strand a host in some continuation that starts no
  process on it if and only if it is not settled (`DrainSafety.StrandsExactly`); a process started on it always can
  (`DrainSafety.BootStrands`).
- A key can be pending deletion with no record, no alarm and no operation in flight: when the backend's reply to a
  schedule is lost (`KeyDeletion.LostReplyPendsSilently`) or the process dies before the row is written
  (`KeyDeletion.CrashPendsSilently`).  `KeyDeletion.SilentExactly` gives the exact steps.  The other way round, a row
  can record a deletion that is not pending: after two cancels at once
  (`KeyDeletion.TwoCancelsLeaveAFalseRecord`) or one whose row write fails
  (`KeyDeletion.HalfCancelLeavesAFalseRecord`); `KeyDeletion.FalseRecordExactly` gives the exact steps.  CAs that
  share a key lose it together (`KeyDeletion.SharedKeyIsTakenAlong`, `KeyDeletion.TakenAlongExactly`).
- A bundle's config keys and its key version are read by two queries, and a failed read falls back to the static
  key.  With a registry write in between, a host can move to the new version without the new key
  (`ConfigTrust.TornRunRejectsStagedKey`).  A host ends up with the keys of the version it learns if and only if, its
  pins apart, the bundle lists exactly those keys (`ConfigTrust.DraftExactly`).
- A candidate whose ship failed is redelivered but, being decided already, captures nothing and is acked: its
  result never reaches the gateway (`CollectRuns.FailedShipLosesTheResult`, `CollectRuns.LostForever`).  A
  captured result is lost if and only if a failed post dropped it and none is still on its way
  (`CollectRuns.LostExactly`).
- Attempts are checked only on a nack, so a message whose lease keeps running out is redelivered without end.  A
  message is dead-lettered if and only if a delivery that used up its attempts ended in a nack
  (`Collect.DeadExactly`).
- A renewal is recorded before it is delivered, so a device that is no longer pending can still hold its old
  certificate (`RegroupRuns.LostAnswerLeavesTheOldCertificate`).  What it holds carries the groups its
  generation stands for: those of the enrollment, or of the write that made it
  (`RegroupRuns.HeldCarriesItsGeneration`).  These are the desired ones if and only if, reserved groups apart, they
  are what is desired now (`RegroupRuns.HeldHasDesiredExactly`).
- The single-device group update is not guarded by the generation it read; a bulk entry landing in between is
  overwritten and its generation used twice (`RegroupRuns.PatchOverwritesAnEntry`,
  `RegroupRuns.StalePatchBreaksTheBooks`).
- The bulk apply checks for reserved groups before trimming names (`Regroup.ReservedGuardExactly`), and the delta
  removes by exact text before trimming (`Groups.DeltaExactly`); both lemmas give the exact condition.
- A batch entry whose base generation is ahead of its row can apply on a replay (`Regroup.AheadAppliesOnReplay`,
  `Regroup.ReplayExactly`).
- A failed health write is not retried for a heartbeat, so a failing gateway can look healthy
  (`GatewayHealth.FailedWriteHidesAFailure`).  After any history the console says healthy if and only if the last
  write that got through told of a success at most a minute ago (`GatewayHealth.HealthyExactly`).
- With page size one, a heartbeat row at the empty address defeats the cursor, since an empty cursor means from the
  beginning.  Out of scope, it keeps the handler from ever moving on (`Pagination.StallsExactly`); in scope, it is
  handed out as the next cursor, so following the cursor returns it for ever (`Pagination.StartsOverExactly`,
  `Pagination.EmptyAddressRepeats`).  No other row is ever returned twice (`Pagination.NeverTwice`).

## Assumptions

- Signatures are ideal (an envelope knows the key that signed it), fingerprints are never blank, and a key
  registered in the config-key registry parses on the host.
- The database executes each statement or transaction atomically.  Queue and row ids are not reused.
- The config-key generation grows with every registry write (`internal/configkey/configkey.go:317-326`).
- The key backend schedules only a key that is not pending and cancels only one that is, as AWS KMS does.  A call
  to it that reports an error changed nothing, except in the modelled case of a lost reply.
- `DrainSafety` has one issued enrollment per overlay address, and a host has at most one heartbeat under way and
  waits for at most one renewal; those it gave up on may go on without it.
- In `RegroupRuns` a device holds its enrollment's certificate as soon as it is enrolled.  The enrollment nonce guard
  is configured in `CollectRuns`.
- Finitely many overlay addresses ever exist during one page (`Pagination.ListPage`, termination).

## Model

| member | source | states |
|---|---|---|
| `Text.TrimIsSlice` | internal/ca/ca.go:657 | Trimming cuts off white space only, at the two ends only. |
| `Text.NormalExactly` | internal/ca/ca.go:657 | Two fingerprints compare equal exactly when, trimmed, they differ in the case of letters at most. |
| `CaLifecycle.StepKeepsInv` | internal/ca/ca.go:127-204 | Every write keeps at most one active CA and unique names and fingerprints. |
| `CaLifecycle.IndexRejectsStaleReads` | internal/ca/ca.go:159-204 | The unique index lets a cut-over through if and only if no CA other than the one it read is active. |
| `CaLifecycle.StepKeepsSomeActive` | internal/ca/ca.go:159-204 | An active CA is displaced only by the one taking over, and then drains. |
| `CaLifecycle.AlwaysOneActive` | internal/ca/ca.go:127-204 | In every run, once some CA is active every later state has exactly one, and it is in the trust bundle. |
| `CaLifecycle.NeverBackwards` | internal/ca/ca.go:127-260 | In every run a CA keeps its identity and its lifecycle rank never falls. |
| `CaLifecycle.TrustedEverSinceStaged` | internal/ca/ca.go:127-204 | A CA that signs has been in the trust bundle in all states since it entered the table. |
| `CaLifecycle.NeverActiveAgain` | internal/ca/ca.go:159-239 | A CA that has left the active state never returns to it. |
| `CaRegistry.Registry.Stage` | internal/ca/ca.go:127-149 | Succeeds exactly for a named, parsing certificate whose name and fingerprint are new, and then inserts one staged row; each refusal has its own error and changes nothing. |
| `CaRegistry.Registry.Activate` | internal/ca/ca.go:159-204 | Succeeds exactly for a staged CA, and then moves that row and the active one and no other. |
| `CaRegistry.Registry.Retire` | internal/ca/ca.go:212-239 | Succeeds exactly for a draining CA, with a readable count, that no issued host's current leaf still chains to; each refusal has its own error, the last with the count. |
| `CaRegistry.Registry.Abandon` | internal/ca/ca.go:243-260 | Succeeds exactly for a staged CA, which alone becomes retired. |
| `CaRegistry.Registry.SeedActive` | internal/ca/ca.go:320-350 | Seeds one active CA if and only if the table is empty, else changes nothing. |
| `CaRegistry.Registry.TrustBundle` | internal/ca/ca.go:278-291 | Returns the sorted certificates of the table's unretired CAs. |
| `CaRegistry.BundleIsTheTrustedSet` | internal/ca/ca.go:278-291 | A certificate is in the bundle if and only if its CA is not retired. |
| `CaRegistry.BundleIsStable` | internal/ca/ca.go:278-291 | The bundle does not depend on the order rows come back in. |
| `CaRegistry.Registry.ForceRenew` | internal/ca/ca.go:430-452 | Marks exactly a draining CA, with a positive window. |
| `CaRegistry.Registry.StopForceRenew` | internal/ca/ca.go:455-467 | Clears the two columns of the row and nothing else. |
| `CaRegistry.Registry.DrainWave` | internal/ca/ca.go:487-503 | A wave is reported exactly while the CA drains under a started force-renew, whatever the fingerprint's case and spacing. |
| `CaRegistry.Registry.ScheduleKeyDeletion` | internal/ca/ca.go:542-594 | Succeeds exactly for a retired, unscheduled CA with a key and no dependents, in a window of 7 to 30 days, when backend and row write accept; each refusal has its own error, what is then pending is stated, and the alarm is raised exactly when the rollback fails. |
| `CaRegistry.Registry.CancelKeyDeletion` | internal/ca/ca.go:599-625 | Succeeds exactly if the CA is scheduled, its key pending, and backend and row write accept; each refusal has its own error and what is then pending is stated; pending keys stay recorded whatever fails. |
| `CaDependents.LiveDependents` | internal/ca/ca.go:656-724 | Counts exactly the issued rows whose CA, by column or else by enroll certificate, is this one, and whose expiry, by the last heartbeat if it reports one and else by enroll certificate, is still to come. |
| `CaDependents.DependentsDisjoint` | internal/ca/ca.go:656-724 | No row is among the dependents of two different CAs. |
| `CaDependents.ContainsFold` | internal/ca/ca.go:639-646 | Found if and only if some entry equals the fingerprint up to case and spacing. |
| `CaDependents.AdoptionStatus` | internal/ca/ca.go:390-423 | Laggards and stale hosts are exactly listed, live + stale = heartbeats and adopted + laggards = live. |
| `CaDependents.GatedStatus` | cmd/harbor/ca_rotate.go:151-157 | The unforced gate opens if and only if every live host trusts the target. |
| `DrainSafety.StepKeepsGood` | internal/ca/ca.go:212-239 | Every step that keeps the nine rules keeps the records faithful, the retires in flight sound and the retired CAs settled. |
| `DrainSafety.ZeroCountIsZero` | internal/ca/ca.go:656-724 | With faithful records and nobody between two leaves, a count of zero means no host holds an unexpired leaf of the CA. |
| `DrainSafety.QuietStays` | internal/signer/signer.go:277-302 | Once nobody signs, is about to sign or is delivering under a CA that is no longer active, nobody ever will again, short of a process started on it. |
| `DrainSafety.SettledStays` | internal/signer/signer.go:334-337 | A retired CA that is settled stays so under every step, whether it keeps the rules or not, short of a process started on it. |
| `DrainSafety.RetiredStrandsNobody` | internal/ca/ca.go:212-239 | In no state that a run keeping the rules reaches does a host hold an unexpired leaf of a retired CA. |
| `DrainSafety.StrandsExactly` | internal/ca/ca.go:206-239 | A retired CA can strand a host, now or in some continuation that starts no process on it, if and only if it is not settled. |
| `DrainSafety.BootStrands` | cmd/harbor/ca_rotate.go:122-147 | A process started on a CA can strand a host, however settled the CA was. |
| `DrainRules.LaggingSignerStrands` | internal/signer/signer.go:277-302 | Necessity: a run in which only a signer lags behind the cut-over ends with a stranded host. |
| `DrainRules.StaleReconcileStrands` | internal/signer/signer.go:240-302 | Necessity: so does one in which a reconcile stores, after the retire, the CA it had read as active. |
| `DrainRules.LateLeafStrands` | internal/enrollment/enrollment.go:426-434 | Necessity: and one in which a leaf signed before the cut-over is recorded after the retire. |
| `DrainRules.LostRenewalStrands` | internal/coreapi/coreapi.go:881-917 | Necessity: and one in which a renewal is recorded and its answer lost. |
| `DrainRules.RetireBetweenStrands` | internal/coreapi/coreapi.go:881-917 | Necessity: and one in which a retire counts between a renewal's record and its delivery. |
| `DrainRules.SilentRenewalStrands` | internal/coreapi/coreapi.go:908-917 | Necessity: and one in which a host renews without a heartbeat row. |
| `DrainRules.LateBeatStrands` | internal/heartbeat/heartbeat.go:131-194 | Necessity: and one in which a heartbeat sent before a renewal is written after it. |
| `DrainRules.UntoldBeatStrands` | internal/coreapi/coreapi.go:529-534 | Necessity: and one in which a heartbeat after a renewal reports no expiry. |
| `DrainRules.StaleBootStrands` | cmd/harbor/ca_rotate.go:122-147 | Necessity: and one in which a process starts on a configured CA that is no longer active, its first reconcile failing. |
| `DrainRules.RetireGoesThrough` | internal/ca/ca.go:212-239 | Whenever no row is counted, the four steps of a retire go through and change no host. |
| `KeyDeletion.BalanceShifts` | internal/ca/ca.go:542-625 | Conservation: for each key, hands and records less pending and unfinished cancels change only when a call lets go of the key or a cancel leaves its row behind. |
| `KeyDeletion.StepKeepsGood` | internal/ca/ca.go:542-625 | Every step of any operators keeps every pending key accounted for. |
| `KeyDeletion.NothingPendsSilently` | internal/ca/ca.go:542-625 | In every run a key pends without record and in nobody's hands only after an alarm, a lost reply or a crash for it. |
| `KeyDeletion.SilentExactly` | internal/ca/ca.go:536-594 | A step starts a silent deletion if and only if it lets go of the key with nothing else to account for it. |
| `KeyDeletion.LostReplyPendsSilently` | cmd/harbor/ca_keydeleter.go:53-66 | Necessity: a run in which one reply is lost leaves a key pending with no record and no alarm. |
| `KeyDeletion.CrashPendsSilently` | internal/ca/ca.go:565-594 | Necessity: so does one in which the process dies between the backend and the row. |
| `KeyDeletion.PendingKeysAreUnused` | internal/ca/ca.go:542-594 | In every run a CA's key that no retired CA has is never pending deletion. |
| `KeyDeletion.TakenAlongExactly` | internal/ca/ca.go:542-594 | A step makes an unretired CA's key pend if and only if it is an accepted schedule for another, retired CA with the same key. |
| `KeyDeletion.SharedKeyIsTakenAlong` | internal/ca/ca.go:542-594 | Necessity: a run in which every call succeeds ends with the active CA's key pending deletion, recorded for a retired CA with the same key. |
| `KeyDeletion.RecordsAreTrue` | internal/ca/ca.go:599-625 | In every run with one cancel per CA at a time, a recorded key is pending, being cancelled, or was left behind by a half-finished cancel. |
| `KeyDeletion.FalseRecordExactly` | internal/ca/ca.go:599-625 | With such cancels a step starts a false record if and only if it ends the only cancel of the key between backend and row, the key not pending again. |
| `KeyDeletion.TwoCancelsLeaveAFalseRecord` | internal/ca/ca.go:542-625 | Necessity: a run of two cancels and two schedules, every call succeeding, ends with a recorded deletion that is not pending. |
| `KeyDeletion.HalfCancelLeavesAFalseRecord` | internal/ca/ca.go:599-625 | Necessity: so does a run with one cancel whose row write fails. |
| `TrustFile.Host.ParsePubPems` | internal/bundle/trust.go:28-42 | Returns exactly the keys of the blocks that parse. |
| `TrustFile.Host.Load` | internal/bundle/trust.go:47-57 | A missing or corrupt file loads as version 0 with no keys. |
| `TrustFile.Host.Persist` | internal/bundle/trust.go:64-97 | Wherever the write stops, the file is the old content or the whole new record, and its version never falls. |
| `TrustFile.Host.TrustedSet` | internal/bundle/trust.go:109-120 | The pins in order, then the learned keys, none added twice. |
| `TrustFile.NewestWins` | internal/bundle/trust.go:64-97 | After any calls with crashes, the file holds the last completed record of the highest version. |
| `TrustFile.OrderDoesNotMatter` | internal/bundle/trust.go:64-97 | If a version determines its keys, order and repetition of deliveries do not matter. |
| `ConfigTrust.StepKeepsGood` | internal/bundle/trust.go:64-120 | Every step whose bundles list the keys of their version keeps bundles and trust files sound. |
| `ConfigTrust.SnapshotsMatch` | internal/coreapi/coreapi.go:267-288 | Where nothing is written between the two reads of a bundle, it lists the keys of its version. |
| `ConfigTrust.AcceptsExactly` | internal/bundle/trust.go:109-120 | In every run of such bundles a host accepts its pins and exactly the keys not retired at its learned version. |
| `ConfigTrust.LearnedHostAccepts` | internal/bundle/trust.go:109-120 | In such a run a host at or past a key's staging trusts it unless it was retired at that version. |
| `ConfigTrust.LearnedHostVerifies` | internal/bundle/bundle.go:179-199 | And what the key signs is authentic against the host's trusted set. |
| `ConfigTrust.AdoptionIsPermanent` | internal/bundle/trust.go:64-120 | A host that trusts a key goes on trusting it, through deliveries and replays, until the registry retires it. |
| `ConfigTrust.DraftExactly` | internal/coreapi/coreapi.go:267-288 | A host that takes a bundle accepts its pins and the keys trusted at the bundle's generation if and only if, the pins apart, the bundle lists exactly those. |
| `ConfigTrust.UnversionedExactly` | internal/bundle/trust.go:64-97 | A bundle without a version is ignored if and only if the host has learned a version or already has just these keys. |
| `ConfigTrust.TornBundleUnlearns` | internal/coreapi/coreapi.go:978-979 | Necessity: a bundle whose version is newer than its keys makes a host drop a key. |
| `ConfigTrust.TornRunRejectsStagedKey` | internal/coreapi/coreapi.go:267-288 | A concrete run ends with a host at the staging generation that rejects the staged key. |
| `ConfigSigner.Verify` | internal/bundle/bundle.go:179-199 | Accepts exactly the authentic bundles, with the signed contents. |
| `ConfigSigner.SignThenVerify` | internal/bundle/bundle.go:158-199 | A signed bundle is accepted exactly by those who trust the key, contents intact. |
| `ConfigSigner.ConfigSigner.Sign` | internal/configsign/configsign.go:88-94 | The Kid is the hash of the key that signs. |
| `ConfigSigner.ConfigSigner.Swap` | internal/configsign/configsign.go:110-120 | Moves to the backend's key exactly if it is usable and new; a failing swap, or one to the current key, changes nothing. |
| `ConfigSigner.ConfigSigner.ReconcileActive` | internal/configsign/configsign.go:142-174 | Swaps exactly on a reading that names a new key whose backend is built and hashes to the name, and then to that key; succeeds otherwise exactly when none or the current key is named. |
| `ConfigSigner.ReconcileExactly` | internal/configsign/configsign.go:142-174 | The same of the decision a tick makes, in terms of its reading alone. |
| `ConfigSigner.FollowsTheRegistry` | internal/configsign/configsign.go:142-174 | Over any ticks, after one that names a key the signer uses it, through failing and blank readings, until another is reported. |
| `ConfigSigner.SignsWithTheNamedKey` | internal/configsign/configsign.go:88-174 | In every interleaving, once a tick has stored the key it read, signing that starts before the next store or swap uses that key and its Kid. |
| `ConfigSigner.StableSourceConverges` | internal/configsign/configsign.go:142-174 | After one success, ticks on the same reference change nothing and never fail. |
| `ConfigSigner.KidNamesTheSigner` | internal/configsign/configsign.go:88-120 | In every interleaving of signing, swaps and ticks no bundle carries another key's Kid. |
| `ConfigSigner.OnlyReportedKeys` | internal/configsign/configsign.go:142-174 | Without manual swaps the key is the boot key or one the registry reported. |
| `Collect.GatewayQueue.Claim` | internal/queue/durable.go:183-225 | Returns exactly the genuine messages on offer, ready or with their lease run out, oldest first within the limit, and leases them; forged ones die, and a message whose lease still runs is neither returned nor touched. |
| `Collect.LeaseIsExclusive` | internal/queue/durable.go:183-225 | Over any sequence of claims, acks and nacks, a message handed out twice was nacked in between or a claim came after its lease ran out. |
| `Collect.GatewayQueue.HandleResults` | internal/collect/collect.go:133-145 | Stores a prefix of the results, all of them exactly when it reports success. |
| `Collect.GatewayQueue.HandleAck` | internal/collect/collect.go:158-176 | Applies the acks and then the nacks up to the first store failure or nack of a lease that is gone, all of them exactly when it reports success. |
| `Collect.SettleAllRemovesAcked` | internal/queue/durable.go:228-244 | A lease leaves the queue if and only if it is acked; the rest keep their enrollment. |
| `Collect.SettledOnce` | internal/queue/durable.go:228-244 | With one verdict a lease, a nacked message is ready again, or dead exactly if its attempts are used up, and one without a verdict is untouched. |
| `Collect.DeadExactly` | internal/queue/durable.go:183-244 | After any mix of nacks and expired leases a message is dead if and only if a delivery at or past the allowed attempts was nacked, else ready with every delivery counted. |
| `Collect.PoisonIsDeadLettered` | internal/queue/durable.go:183-244 | A message that is always nacked is delivered exactly its allowed attempts, at least once, and is then dead. |
| `Collect.ExpiryNeverDeadLetters` | internal/queue/durable.go:183-190 | A message whose lease always runs out is delivered without end. |
| `Collect.ShippingIsIdempotent` | internal/queue/durable.go:255-277 | Shipping the same results again stores the same rows. |
| `Collect.LastWriteWins` | internal/queue/durable.go:255-277 | A stored row shows its last result's status, bundle, reason and expiry. |
| `Collect.FirstSecretStays` | internal/queue/durable.go:255-277 | A new row is unread and keeps the secret of the first result for it. |
| `Collect.Collector.Drain` | internal/collect/collector.go:56-62 | Returns what was captured and leaves the buffer empty. |
| `Collect.Collector.CollectOnce` | internal/collect/collector.go:174-231 | Succeeds exactly when claim, results post and ack post all went through; then every acked lease is gone, every nacked message is on offer again or dead with its attempts used up, and results are stored.  Whatever fails, a lease leaves only if acked, with its enrollment's row showing the last result captured for it. |
| `Collect.OnlyResultIsLast` | internal/queue/durable.go:255-277 | Where a batch has one result per enrollment, that last result is the very one captured. |
| `CollectRuns.StepKeepsGood` | internal/collect/collector.go:174-231 | Every step, lost, late and half-applied posts included, keeps acked leases covered by the very results put at the gateway. |
| `CollectRuns.AckedMeansStored` | internal/collect/collector.go:174-231 | In every run a candidate is queued or acked and not both, and an acked one's captured result was itself put at the gateway before. |
| `CollectRuns.NothingDroppedNothingLost` | internal/collect/collector.go:174-231 | In every run a captured result is stored, on its way, or was dropped by a failed post, and no dropped one is stored. |
| `CollectRuns.LostExactly` | internal/collect/collector.go:174-231 | In every run a captured result is lost if and only if a failed post dropped it and it is not on its way. |
| `CollectRuns.LostForever` | internal/enrollment/enrollment.go:359-362 | A result lost for a decided enrollment stays lost in every continuation. |
| `CollectRuns.FailedShipLosesTheResult` | internal/enrollment/enrollment.go:830-836 | One failed ship leads to an acked candidate whose result is lost. |
| `GatewayHealth.HealthRecorder.Record` | internal/gatewayhealth/gatewayhealth.go:48-68 | A success dates the success and clears the error, a failure dates the error and keeps up to 500 characters of it; neither touches the other's date or another row. |
| `GatewayHealth.HealthRecorder.RecordHealth` | internal/collect/collector.go:276-299 | One gateway's memory and row advance by a cycle; the others are untouched. |
| `GatewayHealth.MemoryCounts` | internal/collect/collector.go:276-299 | The collector remembers the last outcome and counts the failures in a row since a success or restart. |
| `GatewayHealth.RowKeepsStep` | internal/collect/collector.go:276-299 | If the last write got through, the row tells the last outcome and is under a heartbeat old. |
| `GatewayHealth.RowDatesBothOutcomes` | internal/gatewayhealth/gatewayhealth.go:48-68 | With every write stored the row dates the last success and the last failure, each to within a heartbeat. |
| `GatewayHealth.VerdictExactly` | internal/adminapi/gateways.go:50-76 | After any history, failed writes and restarts included, the verdict is decided by the last cycle whose write got through and the last successful one of these. |
| `GatewayHealth.RowCountsStreak` | internal/collect/collector.go:276-299 | The row counts the failures in a row up to the last cycle whose write got through, and keeps what that one said. |
| `GatewayHealth.HealthyExactly` | internal/adminapi/gateways.go:50-76 | The console says healthy if and only if the last write that got through told of a success at most a minute ago, and so is right about the last cycle if and only if that matches its outcome. |
| `GatewayHealth.ConsoleTellsTheTruth` | internal/adminapi/gateways.go:50-76 | If the last write got through, then up to 45 s and 1 ns after a cycle the console says healthy if and only if it succeeded. |
| `GatewayHealth.BoundIsTight` | internal/adminapi/gateways.go:50-76 | One nanosecond later a healthy gateway can be shown as down. |
| `GatewayHealth.VerdictByHistory` | internal/adminapi/gateways.go:50-76 | Unknown before any cycle, down without a success in the last minute, else healthy or degraded by the last outcome. |
| `GatewayHealth.FailureIsNeverHidden` | internal/adminapi/gateways.go:50-76 | After a failing cycle whose write got through, no later look shows healthy. |
| `GatewayHealth.FailedWriteHidesAFailure` | internal/collect/collector.go:293-296 | Necessity: after a failed write a failing gateway is shown as healthy. |
| `Wildcards.MatchGlob` | internal/awsattest/awsattest.go:429-446 | Accepts exactly the strings in the pattern's declarative language. |
| `Wildcards.StarMeans` | internal/awsattest/awsattest.go:427-446 | What that language is: a star stands for any string, every other character for itself. |
| `Wildcards.LeftmostIsEnough` | internal/awsattest/awsattest.go:438-444 | The exchange argument: a piece can always be moved to its leftmost occurrence. |
| `Wildcards.SplitJoin` | internal/awsattest/awsattest.go:430 | Splitting at stars loses nothing and leaves no star. |
| `Wildcards.GlobToLike` | internal/adminapi/device_regroup_bulk.go:506-522 | Under any character comparison the LIKE pattern selects what the glob describes, and never dangles. |
| `Wildcards.GlobMeans` | internal/adminapi/device_regroup_bulk.go:506-522 | What a glob describes: a star any string, a question mark any character, every other character itself. |
| `Wildcards.LikeMeans` | internal/adminapi/device_regroup_bulk.go:506-522 | What a LIKE pattern selects: percent any string, underscore any character, an escaped character itself; one that ends in the escape is rejected. |
| `Wildcards.LikeOfMeansGlob` | internal/adminapi/device_regroup_bulk.go:506-522 | Parsing the LIKE pattern gives back the glob's own tokens. |
| `Wildcards.LikeOfInjective` | internal/adminapi/device_regroup_bulk.go:506-522 | Different globs give different LIKE patterns. |
| `CloudTrust.Check` | internal/awsattest/awsattest.go:363-380 | Allows exactly the identities whose account and ARN are listed, an empty list meaning any. |
| `CloudTrust.Validate` | internal/cloudtrust/cloudtrust.go:79-99 | Valid exactly for a non-empty list of distinct, non-empty accounts; else the first fault. |
| `CloudTrust.ResolveGroups` | internal/cloudtrust/cloudtrust.go:141-155 | The sorted union of default and principal groups without repeats. |
| `CloudTrust.MatchAws` | internal/cloudtrust/cloudtrust.go:131-138 | Denies exactly if no entry has the account and a matching ARN pattern, or none to match; else grants the first such entry's netblock and auto-issue and the sorted union of its groups and the defaults. |
| `CloudTrust.GrantIsUnique` | internal/cloudtrust/cloudtrust.go:131-138 | In a valid config any trusting entry is the one that grants. |
| `CloudTrust.MatchIgnoresOrder` | internal/cloudtrust/cloudtrust.go:131-155 | Reordering accounts or default groups changes nobody's grant. |
| `CloudTrust.ContainsPrivileged` | internal/cloudtrust/cloudtrust.go:106-124 | True exactly when a reserved group or auto-issue appears somewhere. |
| `CloudTrust.PrivilegedExactly` | internal/cloudtrust/cloudtrust.go:106-155 | A valid config is privileged if and only if some identity would get a privileged grant. |
| `Groups.NormGroups` | internal/adminapi/device_groups.go:118-130 | The normal form: trimmed, non-empty, distinct, same groups. |
| `Groups.NormFixed` | internal/adminapi/device_groups.go:118-130 | Normalising a normalised list changes nothing. |
| `Groups.NormInOrder` | internal/adminapi/device_groups.go:118-130 | Groups are kept in order of first appearance. |
| `Groups.SameGroupSet` | internal/adminapi/device_groups.go:133-148 | True exactly when both lists name the same set of groups. |
| `Groups.Pigeonhole` | internal/adminapi/device_groups.go:133-148 | Equal length and one-way containment of distinct lists is set equality. |
| `Groups.GroupsDropped` | internal/adminapi/device_regroup_bulk.go:478-489 | True exactly when the first list has a group the second lacks. |
| `Groups.RemoveInPlace` | internal/adminapi/device_regroup_bulk.go:458-475 | The kept groups are compacted to the front of the same array, in order. |
| `Groups.ApplyDelta` | internal/adminapi/device_regroup_bulk.go:458-475 | The result is normalised and names exactly the replacement's groups, or those of the current and added entries not removed by their exact text. |
| `Groups.DeltaExactly` | internal/adminapi/device_regroup_bulk.go:458-475 | The groups are (current ∪ add) \ remove if and only if no current entry pads a removed name with space. |
| `Groups.Preview` | internal/adminapi/device_regroup_bulk.go:203-235 | An entry exactly for a device that moves, previewed at its generation, and otherwise the reason. |
| `Groups.EntryFlags` | internal/adminapi/device_regroup_bulk.go:223-227 | For stored (normalised) groups an entry is marked reducing exactly if a group goes and elevating exactly if one comes. |
| `Groups.DryRun` | internal/adminapi/device_regroup_bulk.go:203-235 | The first hundred moving devices in order, every other one explained or counted; entries + skipped + capped = candidates. |
| `Groups.PreviewCoversAll` | internal/adminapi/device_regroup_bulk.go:203-235 | Entries and skips are exactly those of the devices that move and of those that do not. |
| `Regroup.Store.ApplyRegroupOne` | internal/adminapi/device_regroup_bulk.go:287-315 | Applies exactly when the latest issued enrollment is the previewed one at its generation and nothing is reserved. |
| `Regroup.Store.ApplyRegroup` | internal/adminapi/device_regroup_bulk.go:278-285 | Each entry is judged against the rows the earlier ones left. |
| `Regroup.ReplayExactly` | internal/adminapi/device_regroup_bulk.go:278-315 | Replaying a batch changes nothing if and only if no fitting entry's base is the generation its row was left at. |
| `Regroup.ReplayAppliesNothing` | internal/adminapi/device_regroup_bulk.go:278-315 | A batch with no entry ahead of its row replays to nothing. |
| `Regroup.AheadAppliesOnReplay` | internal/adminapi/device_regroup_bulk.go:278-315 | Necessity: an entry ahead of its row applies on the replay. |
| `Regroup.ReservedGuardExactly` | internal/adminapi/device_regroup_bulk.go:297-305 | An applied entry writes a reserved group if and only if its target pads a reserved name with space. |
| `Regroup.DedupInPlace` | internal/adminapi/device_regroup_bulk.go:428-438 | The first row of each address is compacted to the front of the same array, in order. |
| `Regroup.LatestPerAddress` | internal/adminapi/device_regroup_bulk.go:428-438 | From rows newest first, exactly the latest enrollment of each address is kept. |
| `RegroupRuns.KeepReservedGroups` | internal/coreapi/coreapi.go:939-951 | The desired groups followed by the reserved groups of the live certificate they lack, each once. |
| `RegroupRuns.StepKeepsGood` | internal/adminapi/device_regroup_bulk.go:287-315 | Every read and write of entries, undisturbed updates and renewals keeps generations, log and certificates consistent. |
| `RegroupRuns.AppliedAtMostOnce` | internal/adminapi/device_regroup_bulk.go:287-315 | In every run no (enrollment, base generation) is applied twice. |
| `RegroupRuns.DesiredIsTheLastWrite` | internal/adminapi/device_regroup_bulk.go:287-315 | The generation counts the applied writes, and desired groups are those of the last, which made it. |
| `RegroupRuns.ConvergedCarriesDesired` | internal/coreapi/coreapi.go:886-907 | In every run the certificate on record for a device that is not pending has its desired groups and at most reserved ones besides. |
| `RegroupRuns.HeldCarriesItsGeneration` | internal/coreapi/coreapi.go:826-907 | In every run the certificate a device holds carries what the generation it was signed for stands for, the enrollment's groups or those of the write that made it; the current generation stands for the desired ones. |
| `RegroupRuns.HeldHasDesiredExactly` | internal/coreapi/coreapi.go:826-907 | In every run a device holds its desired groups if and only if its certificate's generation stands, reserved groups apart, for what is desired now and it lacks no desired reserved group, which only a padded reserved name can cause. |
| `RegroupRuns.LostAnswerLeavesTheOldCertificate` | internal/coreapi/coreapi.go:881-907 | Necessity: a run with one lost answer ends with a device that is not pending and lacks a desired group. |
| `RegroupRuns.StalePatchBreaksTheBooks` | internal/adminapi/device_groups.go:94-98 | The unguarded update keeps the books if and only if the generation is still the one it read. |
| `RegroupRuns.PatchOverwritesAnEntry` | internal/adminapi/device_groups.go:61-98 | For any two changes there is a run in which both apply at generation 0 and the first is lost. |
| `RegroupRuns.ReservedGroupsStay` | internal/coreapi/coreapi.go:826-850 | In every run without padded reserved names, a device's reserved groups never change, on record or in the certificate it holds. |
| `Pagination.Query` | internal/adminapi/adminapi.go:609-624 | The first rows past the cursor that match, in order, and all of them unless cut off by the limit. |
| `Pagination.ListPage` | internal/adminapi/adminapi.go:602-643 | A page is in order, past the cursor, complete for rows that match throughout, and names its last row as the next cursor exactly when full; unless the first query stalls, the walk ends. |
| `Pagination.NeverTwice` | internal/adminapi/adminapi.go:602-706 | Across the pages of any walk, whatever changes in between, addresses strictly increase, save that with page size one the row at the empty address, and it alone, may come again. |
| `Pagination.EveryDeviceOnce` | internal/adminapi/adminapi.go:602-706 | Following the cursor from the start to the end returns every row that matches throughout, exactly once. |
| `Pagination.StartsOverExactly` | internal/adminapi/adminapi.go:701-704 | The next cursor is the empty one if and only if the page has size one and its row is at the empty address. |
| `Pagination.EmptyAddressRepeats` | internal/adminapi/adminapi.go:701-704 | Necessity: with page size one a steady row in scope at the empty address is all that every page of a walk returns. |
| `Pagination.StallsExactly` | internal/adminapi/adminapi.go:608-643 | A round makes no progress if and only if the page has size one and the next row is at the empty address and out of scope; it then keeps nothing. |
| `Sntp.ToNtp` | internal/clock/clock.go:38-42 | Both halves of the timestamp fit 32 bits. |
| `Sntp.ToNtpRoundsDown` | internal/clock/clock.go:38-42 | Within the era a timestamp is the time since 1900 rounded down to 2^-32 s. |
| `Sntp.FromNtpRoundsDown` | internal/clock/clock.go:44-51 | Reading a timestamp rounds it down to the nanosecond, the all-zero one to no time. |
| `Sntp.RoundTrip` | internal/clock/clock.go:38-51 | Within the era the conversion gives back the instant exactly when its nanoseconds divide by 5^9, else one less. |
| `Sntp.OtherErasWrap` | internal/clock/clock.go:38-51 | Outside the era it never does. |
| `Sntp.RttIsTravelTime` | internal/clock/clock.go:107 | The measured round trip is the time on the way, to within 1 ns. |
| `Sntp.OffsetErrorIsAsymmetry` | internal/clock/clock.go:103-108 | The measured offset errs by half the difference of the two ways, up to 1.5 ns. |
| `Sntp.OffsetIsClose` | internal/clock/clock.go:103-108 | The measured offset is within half the measured round trip of the true skew, plus 1.5 ns. |
| `Sntp.CheckBoundsTheSkew` | internal/clock/clock.go:113-124 | Passing the check bounds the true skew from above, failing it from below. |

## Left out

- Command-line handling, process start-up, HTTP, TLS, JSON and authentication: plumbing and foreign services; only their outcomes appear, as parameters.
- Cryptography and certificate parsing: ideal, as listed under Assumptions.
- The refusal to cut over to an expired CA (`internal/signer/signer.go:245-248`): only makes a signer lag.
- Audit records, metrics and log lines: written beside the modelled operations and never read by them.
- `RenderNebulaConfig`, firewall compilation and policy: rendering.
- Dual-control routing of bulk changes, and the classification of candidates by staleness: single decisions; a device carries its skip reason.
- The console's per-gateway view and summary counts around the health verdict: formatting.
- The SQL condition and the scope's allow-set: any predicate on rows and any set of addresses.
- Termination of the collector's outer drain loop: not bounded by the source when candidates keep being nacked.
- The config-key registry's own operations and its retire gate: their shape is that of the CA registry's; `ConfigTrust` uses the lifecycle and the generation.
- The delivery lane of the collector (`ReconcileOnce`): appears in `CollectRuns` as an update of a result the gateway already holds.
- DB errors in the bulk apply (`failed:` results): the row is unchanged.
- Unicode beyond white space: case folding covers ASCII, strings are sequences of characters, and a long error text is cut by characters, not bytes.
