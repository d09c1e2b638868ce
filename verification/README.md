# Tunploy, modelled and proved

Tunploy is a control panel for WireGuard servers that run as Docker containers, on the
panel's own machine and on nodes it reaches over SSH. This project models the parts of it
that are small state machines behind thin I/O, and proves what they are for.

Functions and datatypes model what the code computes from values; classes model what it
updates in place. A class method is proved against a function of the old state, and the
properties are then proved about that function: over one call, over any run of calls, or
as an agreement between the stored form of something and a plain definition of it.

| files | what they model |
|---|---|
| `crypt.dfy`, `crypt_header.dfy`, `bigendian.dfy` | the encrypted backup stream: nonces, writer, reader, header |
| `wg_limits.dfy`, `traffic_log.dfy`, `counters.dfy`, `traffic_store.dfy` | traffic accounting: kernel counters to day totals, limit sums, usage resets, the device list's status filter |
| `update.dfy` | the self-update and its rollback |
| `names.dfy`, `host.dfy`, `server_config.dfy`, `deploy.dfy`, `reconcile.dfy` | containers and config files on a machine: deploying, enforcing limits, reconciling, rebuilding |
| `idempotency.dfy`, `rate_limiter.dfy` | what the API does with a repeated request and with too many |
| `subscriptions.dfy`, `deliveries.dfy`, `dispatcher.dfy` | webhook deliveries: queueing, retries, the drain loop |
| `address.dfy`, `peer_table.dfy`, `place.dfy` | addresses and subnets: 32-bit arithmetic, allocation, placement |
| `activity.dfy` | who is online |
| `wrappers.dfy` | options and results, instants, choosing from a set, counting |

Times are integers, in nanoseconds where the code compares instants and in seconds where
it stores them; days and months are ordered integers. Byte counts are unbounded integers;
32-bit addresses and the 64-bit chunk counter wrap where the code's do. A call that can
fail has a parameter, a script entry or a nondeterministic choice that says whether it
does; where it matters it may also fail after taking effect.

## Results that need a condition

- **A failed update brings the old panel back**, if its rollback could remove the new
  container and rename and start the old one, exactly when neither the rename nor the stop
  of the old container took effect while reporting a failure (`SelfUpdate.Host.Apply`).
  A rename that did leaves it under its second name, a stop that did leaves it stopped
  (`SelfUpdate.LostCall`). It is started even on a database that could not be put back. A
  new container that could not be removed stays, with its database, and the old panel stays
  down. The database is back unless that removal or the moving back of the copies failed;
  even then every file that is there is the old panel's or the new version's, and the two
  panels never run at once.
- **The status filter agrees with the status rule** exactly when the data limit is not
  negative, or the status is decided before the limit is looked at, or nothing below the
  negative limit was used (`WgLimits.FilterAgrees`).
- **The nonces of a stream are distinct** exactly while it has at most 2^64 chunks
  (`BackupCrypt.NoncesDistinct`), so truncation is detected up to there. Section 8 of
  NIST SP 800-38D asks for this uniqueness.
- **The subnet picked for a new server is apart from all others** exactly when one of the
  248 candidates is (`Placement.NextFreeSubnet`); with fewer than 248 servers one is.
- **An enforcement of limits leaves the active peers listed** exactly when it writes, or the
  config is the one the current peers give with the remembered map of blocked peers
  (`ServerConfigs.EnforceIsRight`). As long as every write goes through whole and an edit
  is one step with its write, that is so on every run (`ServerConfigs.EnforceIsExact`). A
  write that fails after its first file can leave a device out once the month turns, for
  as long as the map is what the last whole write left (`ServerConfigs.HalfWriteSticks`).
- **A reading counts no byte twice** exactly when it does not come after a move to a server
  whose interface still holds bytes accounted for before the move (`Counters.ReadingIsClean`). A
  move only writes the table; the interface drops the peer when the config is written
  there, which an offline node puts off. Moved away and back before that, a peer has its
  bytes counted again (`Counters.BytesCountedTwice`). If interfaces let go in time, no more is
  counted than was carried (`Counters.LetGoConserves`). The comment at
  internal/store/wireguard.go:187 takes the new interface to start from zero; the model
  follows the code.

## Model

| member | source | states |
|---|---|---|
| BackupCrypt.NonceInjective | internal/backup/crypt.go:197-205 | two chunks share a nonce exactly when their counters agree as uint64s |
| BackupCrypt.NoncesDistinct | internal/backup/crypt.go:197-205 | all nonces of a stream differ exactly while its chunks fit the counter |
| BackupCrypt.ComputeNonce | internal/backup/crypt.go:197-205 | the loop that folds the counter in computes that nonce |
| BackupCrypt.EncryptWriter.Write | internal/backup/crypt.go:82-96 | succeeds exactly if no chunk that becomes full fails to be written; the state then depends only on all bytes written so far, not on how calls split them |
| BackupCrypt.EncryptWriter.Seal | internal/backup/crypt.go:100-106 | the buffer goes out sealed under the next nonce, with the flag, and the counter moves on even if the write fails |
| BackupCrypt.EncryptWriter.Close | internal/backup/crypt.go:98 | the output is the header and the sealed stream of everything written, with one flagged last chunk |
| BackupCrypt.DecryptReader.Open | internal/backup/crypt.go:159-178 | one chunk is opened, or the error is the one the rest of the input gives; the flag is set exactly at the end of the input |
| BackupCrypt.DecryptReader.Read | internal/backup/crypt.go:145-157 | what is handed out and what is still to come together stay what the input gives, whatever the buffer size |
| BackupCrypt.ReadAll | internal/backup/crypt.go:145-178 | reading on with any buffer sizes delivers exactly what the input gives, up to the same first error |
| BackupCrypt.RoundTrip | internal/backup/crypt.go:82-178 | every plaintext, empty and exact multiples of a chunk included, opens to itself and ends cleanly |
| BackupCrypt.BackUpAndRestore | internal/backup/crypt.go:82-178 | writing in any pieces, closing and reading in any pieces gives the bytes back; the file depends on their concatenation alone |
| BackupCrypt.SealedSize | internal/backup/crypt.go:82-106 | every chunk but the last is full, the last is empty only for an empty plaintext, and each costs one tag |
| BackupCrypt.OnlyItsPlace | internal/backup/crypt.go:17-19 | over an ideal AEAD a chunk opens only at its own place and with its own flag |
| BackupCrypt.TamperProof | internal/backup/crypt.go:17-19 | cut, reordered, repeated or extended input delivers a prefix of the plaintext, and a clean end exactly on the untouched stream |
| BackupCrypt.IdealExists | internal/backup/crypt.go:17-19 | there is such an ideal AEAD for every stream, so the statement above is not empty |
| BackupCrypt.OtherHeader | internal/backup/crypt.go:207-213 | a reader that was given another header delivers nothing and never ends cleanly |
| BackupHeader.HeaderFields | internal/backup/crypt.go:57-69 | each header field is found again at the offset the reader takes it from |
| BackupHeader.ArchiveRoundTrip | internal/backup/crypt.go:125-195 | a written file opens under its passphrase to its plaintext; the key settings the writer may not use are those the reader refuses |
| BackupHeader.KeyIsDerived | internal/backup/crypt.go:180-195 | the key is the one of the passphrase, the salt and the costs in the header; the nonce is the header's |
| BackupHeader.WrongPassphraseRefused | internal/backup/crypt.go:171-195 | a file read under another passphrase, whose key opens nothing that the right one sealed, delivers nothing and ends with the passphrase error |
| BackupHeader.ReaderErrors | internal/backup/crypt.go:125-143 | which files are refused for want of a passphrase, as newer, and as invalid |
| BigEndian.EncodeInjective | internal/backup/crypt.go:199-200 | fixed-width encodings agree exactly when the numbers do modulo the width |
| WgLimits.FilterAgrees | internal/store/devices.go:35-49 | the exact condition under which all four status filters agree with the status rule |
| WgLimits.BlockedIsStatus | internal/wg/limits.go:38-82 | a device is kept off for a reason exactly when its status is that reason, so never when it is disabled |
| TrafficLog.ReplaySound | internal/store/traffic.go:224-232 | in every reachable state a reset's snapshot never exceeds its day's row, and no row is negative |
| TrafficLog.ClampNeverBites | internal/store/traffic.go:167-214 | so neither clamp changes anything, and the filter's summed form equals the per-direction one |
| TrafficLog.LimitIsLog | internal/store/traffic.go:162-220 | limit usage from day totals and snapshot equals the plain log's bytes since the last reset or the month's start, in any time-ordered run |
| TrafficLog.MonthIsLog | internal/store/traffic.go:139-160 | month usage is every byte added since the month began; resets and period changes leave it alone |
| TrafficLog.SumRows | internal/store/traffic.go:195-201 | the row loop computes the sum from a day on |
| Counters.Conservation | internal/store/traffic.go:79-125 | over any run of readings, restarts, absences and moves, on any number of servers: counted, lost and unread bytes add up to those carried and those counted again; none are counted again exactly when no reading after a move finds an interface that still holds bytes accounted for before it, and then no more is counted than was carried |
| Counters.ReadingIsClean | internal/store/traffic.go:119-125 | a reading adds no more than is unread exactly when it is not such a one |
| Counters.ReadingIsWhole | internal/store/traffic.go:119-125 | a reading misses no unread byte exactly when nothing was dropped since the last one, or either count fell, or it counts bytes twice |
| Counters.AbsenceIsNoticed | internal/store/traffic.go:80-87 | a reading that finds the peer absent makes the next one, from zero, exact |
| Counters.LetGoConserves | internal/store/wireguard.go:187-190 | in every run in which a server's interface drops the peer, or restarts, between a move away from it and the next reading that finds the peer there, nothing is counted twice |
| Counters.BytesCountedTwice | internal/store/wireguard.go:187-190 | a peer that is moved away and back before its server's interface drops it has its bytes counted twice, from the start of a run and for any bytes |
| Counters.SteadyIsExact | internal/store/traffic.go:119-125 | with nothing dropped and the peer always there, what is counted is last minus first reading |
| TrafficStore.RecordPeer | internal/store/traffic.go:79-117 | the statements do to a peer's three tables what one reading means |
| TrafficStore.RecordCounts | internal/store/traffic.go:89-125 | a day's total grows by the difference of two readings, by all of the second if either count fell, and by nothing at a first reading or without one; no other day changes |
| TrafficStore.HandshakeIsLatest | internal/store/traffic.go:110-115 | over any run of readings the stored handshake is the latest one read, and there is none exactly if none was read |
| TrafficStore.RowsAreCounted | internal/store/traffic.go:79-117 | over any such run the peer's day rows together hold what was counted, and its stored counter what was last read |
| TrafficStore.Store.RecordTraffic | internal/store/traffic.go:34-77 | each peer of the server is recorded once, from the reading of its own key or its absence, nobody else changes, and the tables stay what replaying the log gives |
| TrafficStore.Store.ResetPeerUsage | internal/store/traffic.go:222-239 | exactly the peer's reset day and snapshot change |
| TrafficStore.Store.MovePeer | internal/store/wireguard.go:177-190 | the usage history stays, the counters start at zero |
| TrafficStore.Store.PeerLimitUsage | internal/store/traffic.go:193-220 | the stored form's limit usage, which is the plain log's whenever time did not run backwards |
| TrafficStore.Store.LimitUsage | internal/store/traffic.go:174-220 | every peer of the server with any usage is there with its limit usage, and no other |
| TrafficStore.Store.PeerMonthUsage | internal/store/traffic.go:138-160 | the plain log's bytes since the month began |
| TrafficStore.Store.Devices | internal/store/devices.go:22-68 | in ascending order exactly the first devices after the cursor that match, their status by the rule clients are shown |
| TrafficStore.FilterIsShown | internal/store/devices.go:35-49 | in every reachable state with a limit that is not negative the filter picks exactly the devices with that status |
| TrafficStore.FiltersPartition | internal/store/devices.go:35-49 | each device is in exactly one of the four lists |
| SelfUpdate.Host.Replace | internal/docker/self.go:127-148 | which name and state the old container is left with, for every outcome of the inspect, the rename and the stop |
| SelfUpdate.Host.SnapshotDb | internal/update/apply.go:220-235 | on success the copies are the three files, missing ones included, whatever copies were there before; it succeeds exactly if every copy does |
| SelfUpdate.Host.RestoreDb | internal/update/apply.go:237-253 | on success the files are the copies and no copy is left; it succeeds exactly if the main file has a copy and every move works |
| SelfUpdate.Host.WaitHealthy | internal/update/apply.go:170-196 | healthy exactly if some poll is, and the container had not stopped at one before it; otherwise whether it stopped or time ran out |
| SelfUpdate.Host.RollBack | internal/update/apply.go:125-157 | what a rollback leaves in each case: the old panel has its name and its state back unless the new container could not be removed or the old one not renamed or started, whatever became of the database; each step works if its calls do; a new container that stays keeps its database and its copies, and the old panel never joins it |
| SelfUpdate.Host.Apply | internal/update/apply.go:95-123 | exactly which calls must work for the update to go through, and which step is named if one does not; the two panels never run at once, and no database file ever comes from a stale copy; a failed update leaves exactly the database the old panel left, whatever the new version wrote, unless the new container could not be removed or the copies not moved back; if that container could be removed and the old one renamed and started, no new one is left, and the old panel runs under its name exactly under the stated condition, finding the reason as it starts, even on a database that could not be put back |
| SelfUpdate.LostCall | internal/docker/self.go:137-147 | a rename or a stop that works but reports a failure, with nothing else failing: the rollback goes through, and the old panel is left under its second name, or stopped |
| SelfUpdate.StopCanBeLost | internal/docker/self.go:142-146 | the input for the stop |
| SelfUpdate.RenameCanBeLost | internal/docker/self.go:137-140 | the input for the rename |
| SelfUpdate.Replacement.Discard | internal/docker/self.go:176-186 | nothing that ran is left when it succeeds |
| SelfUpdate.Replacement.Restore | internal/docker/self.go:188-203 | on success the name is back, which needs it to be free, and a container that was stopped runs |
| Idempotency.Store.ClaimKey | internal/store/apikeys.go:130-172 | expires, claims, refuses or replays as the row and the clock say; other keys are untouched |
| Idempotency.Store.EndRequest | internal/api/apikeys.go:303-316 | a 500 or 429 lets the key go, any other reply is kept |
| Idempotency.Store.DeleteBefore | internal/store/apikeys.go:193-199 | exactly the older rows go |
| Idempotency.OneInFlight | internal/api/apikeys.go:279-317 | on every interleaving of requests, replies, stops and clean-ups on one key at most one handler runs, if each ends within five minutes |
| Idempotency.ReplaysForADay | internal/store/apikeys.go:130-172 | for 24 hours from a finished claim nothing changes the row, every request with its hash gets that one reply and none with another hash runs |
| Idempotency.ReplyExpires | internal/store/apikeys.go:139-141 | a finished claim is let go exactly when it is over a day old in whole seconds, and the next request runs |
| Idempotency.FinishThenReplay | internal/api/apikeys.go:300-316 | so the handler's own reply is what later requests meet |
| Idempotency.FailureReleases | internal/api/apikeys.go:304-310 | after a 500 or 429 the next request runs, whenever it comes and whatever its hash |
| Idempotency.CrashIsBusy | internal/store/apikeys.go:124-128 | after the panel stopped during a request the key is refused for five minutes from its claim |
| Idempotency.TakeOver | internal/store/apikeys.go:139-141 | a running claim is taken over exactly when it is more than 300 whole seconds old |
| RateLimiter.Limiter.AllowKey | internal/api/apikeys.go:234-249 | grants or refuses as the bucket says and changes that bucket alone |
| RateLimiter.Budget | internal/api/apikeys.go:234-249 | tokens stay within 0 and 60, and grants plus tokens left never exceed a full bucket and what came back |
| RateLimiter.RateBound | internal/api/apikeys.go:234-249 | any stretch of calls within an interval is granted at most 60 and ten a second |
| RateLimiter.BurstIsSixty | internal/api/apikeys.go:234-249 | of the calls a new key makes at one instant exactly the first sixty are granted |
| RateLimiter.TenASecondAlways | internal/api/apikeys.go:234-249 | calls a tenth of a second apart are all granted, from any bucket |
| RateLimiter.WaitIsExact | internal/api/apikeys.go:245-247 | a refused caller is granted after waiting exactly when it waits at least the time it was told |
| RateLimiter.HeaderIsEnough | internal/api/apikeys.go:172-209 | nor does the whole-second header ever tell it to come back too early |
| Names.DecimalInjective | internal/deploy/deploy.go:158-160 | different ids have different names |
| Names.NamesSplit | internal/deploy/deploy.go:33-35 | no two pairs of a prefix and an id make the same name |
| Hosts.Host.RemoveContainer | internal/docker/container.go:177-196 | a container no panel made is refused and stays; another call removes it or reports why not |
| Deployment.Manager.WriteConfig | internal/deploy/deploy.go:416-451 | on success the directory is what the database asks for and the blocked peers are remembered; no other directory changes, whatever fails; it fails only if a call does |
| Deployment.Manager.Deploy | internal/deploy/deploy.go:211-248 | on success a new container of the instance on the current image, started with the database's config or not started, as asked; no other container changes, whatever fails; it fails only if a call does or the name is held by a container no panel made |
| Deployment.Manager.Apply | internal/deploy/deploy.go:365-375 | on success the config is the database's and a running container took it up; containers stay; it fails only if a call does |
| Deployment.Manager.EnforceLimits | internal/deploy/limits.go:15-40 | a config in step with the remembered map stays in step and lists exactly the active peers afterwards, rewritten or not, and a running container took up one that was rewritten; exactly the peers whose reason changed are reported, and no other instance's map changes |
| Deployment.ReportedIsChanged | internal/deploy/limits.go:24-40 | exactly the peers blocked for another reason than at the last write, or not any more, are reported, with the new reason |
| Deployment.OthersStayInStep | internal/deploy/deploy.go:416-451 | writing one instance's config leaves every other one in step, whatever came of it |
| Deployment.WantedIsActive | internal/deploy/deploy.go:416-425 | the config the database asks for lists exactly the active peers, has a resolver exactly if DNS is on the server, and a speed line for exactly the active peers with a limit |
| Deployment.DeployedIsOurs | internal/deploy/deploy.go:162-167 | what a deploy makes counts as the panel's own in whatever state it is later |
| ServerConfigs.BlockedPeers | internal/deploy/limits.go:55-72 | the map holds the reason of each peer that has one |
| ServerConfigs.BlockedAt | internal/deploy/limits.go:65-70 | a peer is in the map exactly when it is blocked, with its reason |
| ServerConfigs.ListedIsActive | internal/wg/config.go:30-33 | leaving out blocked peers and then disabled ones leaves exactly the active peers, in order |
| ServerConfigs.ShapedIsActive | internal/wg/config.go:96-107 | the limits file lists exactly the active peers with a speed limit, in order |
| ServerConfigs.EnforceIsExact | internal/deploy/limits.go:15-40 | on every run of edits, traffic, resets, writes and restores, after an enforcement the config lists exactly the active peers, so a write left out was not needed |
| ServerConfigs.EnforceIsRight | internal/deploy/limits.go:24-31 | in any state an enforcement leaves the active peers listed exactly when it writes, or the config is the one the peers give with the remembered map |
| ServerConfigs.HalfWriteSticks | internal/deploy/deploy.go:424-449 | a write that fails after the config file, over a device at its limit, leaves that device out when the month turns and it is active again |
| ServerConfigs.HalfWriteExample | internal/deploy/deploy.go:424-449 | such a run, step by step: a device with a limit of ten bytes a month that used ten |
| Reconciliation.Reconcile | internal/deploy/reconcile.go:42-90 | each instance whose turn worked has a container on the current image, running if it ran or was missing and not running if it was stopped, and the database's config, taken up if it runs, whatever failed elsewhere; without a failure that is every instance, nothing else of ours is left in any state and the directories are those of the instances; turns that did not work and orphans that stayed are no more than the calls that failed and the names that were taken; no other container and no instance's directory is ever removed, and a second run leaves every container alone |
| Reconciliation.ReconcileInstances | internal/deploy/reconcile.go:54-76 | every instance has its turn: those whose turn worked are done, whatever came of the others, those that did not are no more than the calls that failed and the names that were taken, and nothing but what is named for instances changes |
| Reconciliation.RemoveOwned | internal/deploy/reconcile.go:78-86 | only our own containers that belong to no instance go, and without a failure all of them; unless it is to stop at a failure, those that stay are no more than the calls that failed |
| Reconciliation.RemoveStaleConfigs | internal/deploy/reconcile.go:184-204 | only directories of no instance go, and without a failure all of them |
| Reconciliation.RebuildNode | internal/deploy/reconcile.go:158-182 | without a failure our own containers are exactly one new, running one for each instance, with the database's config; it fails only if a call does or a name is taken; no other container and no instance's directory is ever removed |
| Reconciliation.DeployAll | internal/deploy/reconcile.go:175-181 | each instance whose deploy worked has a new, running container, whatever came of the others, and those that did not are no more than the calls that failed and the names that were taken |
| Reconciliation.OtherPanelsApart | internal/deploy/deploy.go:162-167 | another panel's container is never ours and never named for an instance of ours |
| Reconciliation.MarkRebuild | internal/deploy/reconcile.go:132-148 | every stored node and the panel's own machine is marked, which is the run's step for a restore, and the remembered maps are dropped |
| Reconciliation.NodeUp | internal/deploy/reconcile.go:21-40 | a node out of reach keeps its mark; one that is reached rebuilds exactly if it was marked, and loses the mark: the run's step for a node that comes up |
| Reconciliation.FirstReachRebuilds | internal/deploy/reconcile.go:132-156 | after a restore the mark of every stored node and of node 0 stays until the node is first reached, and then is gone until the next restore |
| Subscriptions.SubscribedIsMember | internal/store/webhooks.go:170-175 | the text search over the stored list finds exactly the kinds that are in it |
| Deliveries.RunKeeps | internal/store/webhooks.go:106-294 | on every run, tries under way included, a delivery is pending exactly when it has a time for its next try, and was tried at most seven times plus once for each retry by hand |
| Deliveries.TryUsesOne | internal/webhook/webhook.go:130-149 | a try that succeeds leaves none, any other one less up to seven, and none is left exactly when the delivery is over |
| Deliveries.SuccessIsFinal | internal/webhook/webhook.go:130-149 | an answer in the two hundreds ends a delivery: no further try on any run without a retry by hand; no other answer makes it a success |
| Deliveries.TriesAreCounted | internal/store/webhooks.go:237-254 | on every run a row counts exactly the tries recorded for it |
| Deliveries.SevenAtMost | internal/webhook/webhook.go:34-38 | on every run the tries of a delivery, those before it included, are at most seven and one for each retry by hand, before the run or in it, whether or not it is still there at the end |
| Deliveries.OverIsOver | internal/store/webhooks.go:106-131 | a delivery that succeeded, failed or was given up is never touched again unless it is retried by hand |
| Deliveries.PendingStays | internal/store/webhooks.go:287-295 | a delivery still to be sent is never cleaned up or altered, and goes only with its webhook |
| Deliveries.OffSendsNothing | internal/store/webhooks.go:106-131 | after a webhook was turned off, nothing it still had to send is tried, turned on again or not |
| Deliveries.SevenTries | internal/webhook/webhook.go:34-38 | a receiver that never answers is tried seven times, the last 74160 seconds after the first, and then no more |
| Dispatching.Store.QueueDeliveries | internal/store/webhooks.go:168-180 | each enabled webhook that wants the kind gets one new row, and no other row changes |
| Dispatching.InsertedRows | internal/store/webhooks.go:168-180 | the new rows are pending, never tried and due now, with the event's text, the old ones as they were |
| Dispatching.Store.DueDeliveries | internal/store/webhooks.go:213-235 | the oldest due rows of webhooks that are on, in order, each once, as many as fit; all of them if the batch is not full |
| Dispatching.Store.DeleteDeliveriesBefore | internal/store/webhooks.go:287-295 | exactly the deliveries older than the time that are not still to be sent go |
| Dispatching.Store.UpdateWebhook | internal/store/webhooks.go:106-136 | turned off, nothing of that webhook is pending any more; no other row changes |
| Dispatching.Store.RetryDelivery | internal/store/webhooks.go:198-211 | that row is due at once, in whatever state it was, if its webhook is on |
| Dispatching.Store.DeleteWebhook | internal/store/webhooks.go:138-144 | exactly its deliveries go with it |
| Dispatching.Dispatcher.DeliverDue | internal/webhook/webhook.go:107-128 | each row of the batch is tried once and left done, put off by the delay for its tries, or given up, as the answer says; a batch that is not full held all that was due |
| Dispatching.Dispatcher.Drain | internal/webhook/webhook.go:91-97 | the loop ends; each delivery that was due has been tried exactly once, is done after an answer in the two hundreds and put off or given up after any other, and none is due any more |
| Addresses.HostRangeIs | internal/wg/address.go:30-38 | no sum in the range wraps, not even for /0 where the size itself does |
| Addresses.HostsAreHosts | internal/wg/address.go:30-48 | the range holds exactly the addresses of the subnet but its first and last |
| Addresses.HostCount | internal/wg/address.go:56-58 | there is one host address more than the capacity |
| Addresses.NextAddress | internal/wg/address.go:11-28 | the lowest unused host address; none exactly when all are used |
| PeerTable.CapacityIsExact | internal/wg/address.go:56-58 | no subnet ever has more peers than its capacity, and it is full exactly when it has that many |
| PeerTable.Table.CreatePeer | internal/store/wireguard.go:95-146 | the new peer has the lowest free address, addresses stay distinct, in range and off the server's own; it is refused as full exactly at capacity |
| PeerTable.Table.MovePeer | internal/store/wireguard.go:148-195 | only that peer's server and address change, to the lowest free one there; the same refusals |
| PeerTable.Table.DeletePeer | internal/store/wireguard.go:298-304 | only that peer goes |
| PeerTable.Table.DeleteInstance | internal/store/wireguard.go:87-93 | its peers go with it, the others stay |
| Placement.OverlapIsShared | internal/instance/place.go:126-136 | two subnets overlap exactly when some address lies in both |
| Placement.Overlapping | internal/instance/place.go:126-136 | the first server that overlaps, none exactly when all are apart |
| Placement.NextFreeSubnet | internal/instance/place.go:138-147 | the first candidate that is apart from every server, exactly when some candidate is, and always with fewer than 248 servers |
| Placement.SomeBlockFree | internal/instance/place.go:138-147 | pigeonhole: each server lies in one block, so fewer than 248 leave one of 248 alone |
| Placement.ChooseSubnet | internal/instance/instance.go:69-86 | the address asked for, or a free subnet: a /24, or the smallest with room for the devices asked for; servers created one at a time stay pairwise apart, and are refused exactly when they should be |
| Placement.SubnetBitsFor | internal/instance/place.go:149-157 | the longest prefix up to /24 with room, refused exactly outside 1 to the capacity of a /16 |
| Placement.NextFreePort | internal/instance/place.go:159-171 | the lowest free port of the node from the default up; a used one exactly when none is free |
| Placement.Select | internal/instance/place.go:84-124 | the running server in the place asked for, and not the one left, with a free address and the fewest devices, the first of those; none exactly when there is none |
| Activity.Tracker.Observe | internal/deploy/activity.go:37-79 | what is kept of each peer of the reading is what all its readings since it was first seen leave; others are forgotten, and exactly the changed ones are reported, once |
| Activity.ChangesAreReports | internal/deploy/activity.go:67-75 | what is reported of a peer, look by look, is what its run of readings reports |
| Activity.ReportsAlternate | internal/deploy/activity.go:67-75 | nothing is reported at first sight, then reports alternate and the last one is how things are |
| Activity.DisconnectNamesItsRun | internal/deploy/activity.go:61-74 | a disconnect carries the time of the first reading of the online run that just ended |
| Activity.SampleIsHistory | internal/deploy/activity.go:46-64 | what is remembered of a peer is what a look back over all its readings finds |
| Activity.SilenceIsOffline | internal/deploy/activity.go:81-94 | with a keepalive, a count that stands still over the window means offline |
| Activity.HandshakeDecides | internal/deploy/activity.go:81-94 | without a keepalive online means a handshake of the last three minutes |
| Activity.FreshUntilSilent | internal/deploy/activity.go:81-94 | with one and a fresh handshake, online until the count stood still for two keepalives and ten seconds |
| Activity.OnlineNeedsEvidence | internal/deploy/activity.go:81-94 | with a keepalive and no fresh handshake, online exactly by growth seen within the window |

## Left out

- The HTTP server and its decoding, SSH, S3, SMTP, the Docker client, release checks, ACME, GeoIP and the web front end: wrappers over libraries, or user interface.
- Cryptography: the cipher is an ideal AEAD, key derivation and the request hash are uninterpreted.
- SQL text and transactions: a query is a function or an update of maps, a transaction one step. The 64-bit limit of byte counts and ids is not modelled.
- The calendar: days and months are integers, a month's first day is given, and time zones play no part.
- PeerUsage and its chart series, which rest on the calendar.
- Goroutines and mutexes: a locked section is one step, and steps interleave where the properties say so. A batch of deliveries is sent one after the other, not four at a time.
- Floating point: tokens are reals.
- The clock within one reconcile or drain stands still, and the database does not change under it.
- A handler that runs past the five-minute limit, a peer edit whose config write fails, a webhook turned off while the drain is sending to it, and two servers created at the same time: the code does not close these races, so they are assumptions.
- What nextFreeSubnet and nextFreePort return when everything is taken, beyond that it clashes.
- Reconciliation.Reconcile: does not say that a stopped container stays stopped over several runs: one that was removed and could not be created again is missing to the next run, which starts it.
- Deployment.Manager.EnforceLimits: is about the config file; when a running container fails to take it up, the map is remembered all the same and the next enforcement does not try again.
- SelfUpdate.Host.Apply: what the new version logs last, which ends up in the error text, and the configuration copied to the new container are not modelled.
- PeerTable.Table.CreatePeer: names and keys that are in use are a refusal the caller decides on, since rows hold no name or key here.
- Event texts, config file texts and address parsing: a config is the list of peers and settings that it is made from.
- Case folding of countries and cities: they are taken as folded.
- Idempotency keys and bodies over the size limits, which are refused before the key is claimed.
