# Drogue Cloud: a verified model of its core protocols

Drogue Cloud is an IoT connectivity layer: a registry of applications and devices, endpoints that devices connect to,
and services in between that talk through PostgreSQL and Kafka. This project models the parts of it whose correctness
does not show in any single function, and proves what they promise, for all inputs and over all runs.

`dafny verify dfyconfig.toml` checks everything.

## The modules

| module | what it models |
|---|---|
| `Common` | options, results, and the machine integers `u64` and `i64` with their casts |
| `Outbox`, `OutboxRuns` | the outbox table with its guarded upsert and delete, and the protocol around it |
| `Resend` | the resender, and what its passes achieve together with the deliveries |
| `Consumer` | the retry-and-acknowledge loop of the registry event consumer, with crashes and restarts |
| `Diff`, `Generation` | change detection between two states of a resource, and the counters that follow from it |
| `Auth` | the authorization rule |
| `Registry`, `RegistryRuns`, `RegistryOutcomes` | application records, the alias index, the update transaction, optimistic locking, and which operations are accepted |
| `Pipeline` | all of the change pipeline at once: transactions that write records and outbox rows, Kafka, resends |
| `Losses` | exactly which changes the pipeline loses |
| `Lifecycle` | the notification of creations and removals |
| `DeviceState`, `DeviceStateRuns` | sessions of endpoints and the device states they hold, a lease protocol |
| `Commands`, `CommandDelivery` | the command dispatcher's two-map index, and commands from request to subscriber |
| `Select`, `SelectText`, `SelectTail` | the builder of SELECT statements, judged in SQL's three-valued logic, and their text, read back |
| `Token`, `CrcRemainder` | the access token format: CRC-32, also as a remainder of polynomials, and base 62 |
| `Streamer` | the streaming writer of JSON arrays |
| `KafkaNames` | the names of Kafka resources |

Code that changes state is a class with methods, whose contracts tie the new state to a function of the old one; the
theorems are about these functions. Protocols are state machines. A step that is not possible in a state (the delivery
of an event that nobody sent, say) changes nothing, so every sequence of steps is a run and the theorems range over all
of them. Each database transaction is one step; Kafka is the set of all events ever handed to it, any of which may
arrive at any time, any number of times, or never.

## The main results

* **No change is lost** (`Pipeline.EveryChangeIsNotified`). Over every run of updates, deletions, creations and
  clean-ups, interleaved with lost, repeated, late and reordered events and with resends, the last change of a part of a
  record is the one in its outbox row or, if there is no row, has been passed to `mark_seen`: exactly unless a clean-up
  made it. "Last change" is judged by the stored records alone, so this joins the exactness of the diff, the counters,
  the transaction and both SQL guards. `Pipeline.IncarnationIsNotified`, `Pipeline.FirstIncarnationIsNotified` and
  `Pipeline.EveryIncarnationIsNotified` say for which lives of a record it holds in runs of the whole system, and
  `Lifecycle.TurnsAreNotified` is the like for creations and removals.
* **No stale event hides a newer change** (`OutboxRuns.RowsLeaveOnlyWhenSeen`), as long as revisions do not decrease
  per uid. `Losses.LostExactly` says, by what was written before a record was created, exactly which of its updates can
  be lost.
* **The consumer never skips** (`Consumer.NothingIsSkipped`, `Consumer.UnhandledEventBlocks`).
* **Leases are exclusive** (`DeviceStateRuns.LeaseHolds`), **and connection events tell the truth** in every run
  exactly if each step, whatever fails in it, publishes an event and commits the change together, or does neither
  (`DeviceStateRuns.TruthExactly`).
* **The command index refines a list of subscriptions** (`Commands.IndexRefinesList`,
  `Commands.UnsubscribeUndoesSubscribe`), and from the request to the channels a command reaches exactly those who want
  it (`CommandDelivery.HandleRequest`).
* **The query compiler preserves meaning** (`Select.CompiledMeansConditions`), the placeholders in its text are those of
  its parameters (`SelectText.BuiltPlaceholders`, `SelectText.CompiledPositions`), and the rows it lets a user read are
  those that the authorization rule allows, with the exact exceptions (`Select.AuthReadAgrees`).
* **The alias index is exact**, and **of several updates for the same version at most one wins**
  (`RegistryRuns.AliasIndexIsExact`, `RegistryRuns.AtMostOneUpdateWins`).
* **A corrupted token is rejected**: any change within four adjacent bytes of the signed part changes the CRC
  (`Token.CorruptionIsDetected`). The CRC is the remainder that the standard defines (`CrcRemainder.CrcIsRemainder`).
* **Operations on applications have exactly one outcome, by what the caller can see** (`RegistryOutcomes.UpdateOutcome`,
  `RegistryOutcomes.CreateOutcome`, `RegistryOutcomes.DeleteOutcome`).
* **Last wills are published** once, before the disconnect, for every removed row (`DeviceStateRuns.WillIsPublished`).
* **The streamed text is the array**, and reads back as its items (`Streamer.ArrayStreamer.Collect`,
  `Streamer.WrittenReadsBack`).

## Where the code does not do what one might expect

The model follows the code. Each of these is a lemma, and where a promise fails the lemma says exactly when.

* The events of an application update carry the nil uid, since the converted entity has no other
  (`device-management-service/src/service/mod.rs:130`, `:261`), while revisions start anew with each application of the
  same name. An update is safe, whatever follows, if and only if no entry that was written for the part before the
  application was created bears the nil uid and a greater revision: `Losses.LostExactly`. `Losses.RecreationLosesChange`
  and `OutboxRuns.ReusedUidLosesChange` are families of runs that lose one. Updates of devices take the uid of the
  record; under that policy all of them are safe (`Losses.RealUidsAreSafe`), and `Pipeline.EveryIncarnationIsNotified`
  holds across deletion and re-creation.
* An update or clean-up that removes a marked application sends no event, so that removal is never notified:
  `Lifecycle.TurnsAreNotified`.
* `check_clean_app` drops the events of its update (`device-management-service/src/service/mod.rs:319`). It changes a
  surviving record, always silently, exactly if the record is marked, has no devices, and has the finalizer for devices
  and another one: `Pipeline.CleanUpIsSilent`.
* Revisions are stored as INT8, so the guards compare correctly exactly when both revisions are on the same side of
  2^63: `Outbox.SqlOrderAgrees`.
* The upsert does not update the column INSTANCE: `OutboxRuns.InstanceIsNotUpdated`.
* Events are published before the transaction commits, and a misconfigured or missing application is tolerated. So a
  step can announce what it then rolls back, or commit what it did not announce: `DeviceStateRuns.StepTruth` has the exact
  condition for each operation. A failed prune that has announced a disconnect leads to a second one:
  `DeviceStateRuns.FailedPruneRepeatsDisconnect`.
* The expiry that the device state service promises is exact only for timeouts of whole milliseconds:
  `DeviceState.ExpiryIsExact`.
* Two sections can share a path, namely exactly if the name of one is that of the other, a dot and more:
  `Diff.SectionsCollide`. Diffs over some sections never report a path twice exactly if no two of them do:
  `Diff.DistinctExactly`.
* `auth_read` and `authorize` differ for applications without an owner, for those shared with the anonymous user only,
  and for the empty owner name: `Select.AuthReadAgrees`.
* The pattern for Kafka names is a raw string in which the backslash before the dot is doubled, so it accepts a
  backslash and any character where a dot was meant. A name with a dot takes the hashed route, which is harmless; a name
  that takes the simple route and contains a backslash always has a colliding partner: `KafkaNames.BackslashCollides`.

## Model

| member | source | states |
|---|---|---|
| `Outbox.StorageRoundTrip` | database-common/src/models/outbox.rs:23-42 | event, entry and row encode the same change; an entry comes back from its row exactly when its device name is not the empty string |
| `Outbox.EntriesKeepFields` | registry-events/src/db.rs:8-85 | the entry of an event has exactly its fields, for applications and devices, and gives the event back |
| `Outbox.SqlOrderAgrees` | database-common/src/models/outbox.rs:92-131 | the signed order of stored revisions agrees with the unsigned one exactly when both are on the same side of 2^63 |
| `Outbox.OutboxTable.Create` | database-common/src/models/outbox.rs:73-137 | the new table is the guarded upsert of the old one: overwritten only by a greater revision or another uid |
| `Outbox.OutboxTable.MarkSeen` | database-common/src/models/outbox.rs:139-184 | removes the row of the event's key exactly if it has the same uid and no greater revision, and answers whether it did |
| `Outbox.OutboxTable.FetchUnread` | database-common/src/models/outbox.rs:186-216 | lists each row older than the cutoff once, oldest first, and no other |
| `OutboxRuns.StepKeepsInv` | database-common/src/models/outbox.rs:73-184 | every step keeps: the row of a key is its most recent create, or that create has been seen; nothing is on the wire that was not created |
| `OutboxRuns.NoChangeIsLost` | database-common/src/models/outbox.rs:73-184 | in every run the most recent create of a key is in the outbox, or came back from Kafka, if revisions do not decrease per uid |
| `OutboxRuns.RowsLeaveOnlyWhenSeen` | database-common/src/models/outbox.rs:139-184 | a row goes only through an event with exactly its uid and revision, so no stale, repeated or foreign event hides a change |
| `OutboxRuns.DeliveryMatches` | database-common/src/models/outbox.rs:139-184 | in a state of such a run, an event that removes a row is the event of that row |
| `OutboxRuns.CreateTakesEffect` | database-common/src/models/outbox.rs:73-137 | which creates leave their own change in the table: all but those that meet a greater stored revision of their uid; other keys are untouched |
| `OutboxRuns.RowsAreStamped` | database-common/src/models/outbox.rs:76-102 | a create that is written stamps its row with the time, and leaves all other rows as they are; one that is not changes nothing |
| `OutboxRuns.RowsKeepTheirTime` | database-common/src/models/outbox.rs:76-102 | in every run a row has the time of the last create that was written for its key |
| `OutboxRuns.InstanceIsNotUpdated` | database-common/src/models/outbox.rs:76-102 | in any table, a row keeps the instance of its first insert, whatever is created after it |
| `OutboxRuns.ReusedUidLosesChange` | device-management-service/src/service/mod.rs:125-135 | when revisions of one uid start anew, a late event removes the row of a change that nobody has seen |
| `Resend.Resender.Process` | outbox-controller/src/resend.rs:77-105 | sends the events of the rows in order, up to the first row that cannot be read or sent; succeeds exactly when there is none |
| `Resend.Resender.Pass` | outbox-controller/src/resend.rs:64-105 | a pass sends a prefix, in timestamp order, of the events of all old rows; all of them exactly if it succeeds |
| `Resend.PassSendsOldRows` | outbox-controller/src/resend.rs:77-105 | in every state of a run, a pass has the event of a row among those it sends exactly if the create that wrote the row is more than the given time old |
| `Resend.MarkAllKeepsUncovered` | database-common/src/models/outbox.rs:139-184 | any sequence of `mark_seen` calls keeps exactly the rows that none of the events covers |
| `Resend.MarkAllIgnoresOrder` | database-common/src/models/outbox.rs:139-184 | the outcome depends on the set of events only, not on order or repetition |
| `Resend.DeliveryRemovesSentRows` | outbox-controller/src/resend.rs:64-105 | delivering what a pass sent, in any order, removes exactly the rows whose events were sent |
| `Resend.PassDrainsOutbox` | outbox-controller/src/resend.rs:77-105 | once creates stop, one pass without failure over old rows, and delivery of what it sent, empties the outbox |
| `Consumer.EventStream.HandleEvent` | registry-events/src/stream/mod.rs:69-78 | the retry loop succeeds exactly if one of the first twelve handler calls does, and changes no offset |
| `Consumer.EventStream.Fetch` | registry-events/src/stream/mod.rs:67 | a message that parses is next to be handled; anything else stops the run |
| `Consumer.EventStream.Acknowledge` | registry-events/src/stream/mod.rs:79-80 | stores the offset after the event, or stops the run |
| `Consumer.EventStream.Turn` | registry-events/src/stream/mod.rs:67-81 | one event is fetched, handled and acknowledged, in this order; anything that fails stops the run before the acknowledgement |
| `Consumer.EventStream.Run` | registry-events/src/stream/mod.rs:62-84 | the loop passes exactly the events before the first that cannot be fetched, parsed, handled or acknowledged, and is a run of the state machine |
| `Consumer.StepKeepsHandled` | registry-events/src/stream/mod.rs:67-81 | every step, crashes and restarts included, keeps: all below the stored offset is handled, and what is handled is a prefix of each partition |
| `Consumer.NothingIsSkipped` | registry-events/src/stream/mod.rs:62-84 | in every run with crashes and restarts, each event below the stored or committed offset was handled successfully |
| `Consumer.AtMostTwelveCalls` | registry-events/src/stream/mod.rs:69-78 | no event gets more than twelve handler calls between two starts |
| `Consumer.RetriesUntilTwelve` | registry-events/src/stream/mod.rs:69-78 | a handler that keeps failing is called again until the twelfth failure stops the run, and nothing is stored |
| `Consumer.RestartResumes` | event-common/src/stream/mod.rs:190-223 | a restart resumes each partition where the last commit was |
| `Consumer.UnhandledEventBlocks` | registry-events/src/stream/mod.rs:62-84 | behind an event that was not handled, nothing of its partition ever is, however often the consumer starts again |
| `Diff.DiffMaps` | database-common/src/models/diff.rs:84-113 | reports each key whose value differs once, below its section |
| `Diff.DiffMapsData` | database-common/src/models/diff.rs:115-127 | the same when either side is not an object and counts as empty |
| `Diff.DiffSection` | database-common/src/models/diff.rs:63-81 | reports each differing (section, key) once |
| `Diff.DiffPaths` | database-common/src/models/diff.rs:37-61 | the paths are the metadata path, exactly if the metadata differs, and one per cell whose value differs |
| `Diff.ChangedCellsAreExact` | database-common/src/models/diff.rs:55-127 | a cell is reported exactly if its value differs, a missing or non-object section counting as empty |
| `Diff.NothingReportedMeansEqual` | database-common/src/models/diff.rs:37-53 | nothing is reported exactly if labels, annotations, finalizers and all cells are the same |
| `Diff.PathsAreInjective` | database-common/src/models/diff.rs:84-113 | unless their sections collide, two cells have the same path only if they are the same |
| `Diff.PathIsNotMetadata` | database-common/src/models/diff.rs:37-53 | no cell has the path of the metadata |
| `Diff.SectionsCollide` | database-common/src/models/diff.rs:84-113 | two sections have a path in common if and only if one name is the other one, a dot and more |
| `Diff.PathsAreDistinct` | database-common/src/models/diff.rs:37-53 | without colliding sections no path is reported twice |
| `Diff.DistinctExactly` | database-common/src/models/diff.rs:37-127 | all diffs over a set of sections report every path at most once if and only if no two of the sections collide |
| `Diff.ReportedCellsAreThePatch` | database-common/src/models/diff.rs:37-127 | copying some cells from the new into the current state makes all sections agree exactly if every reported cell is among them |
| `Diff.SwappedDiffIsPermuted` | database-common/src/models/diff.rs:37-127 | swapping the arguments gives a permutation of the same paths |
| `Diff.SpecPathsAreSpecCells` | database-common/src/models/gen.rs:86-94 | some reported path starts with `.spec` exactly if some differing cell is in a section whose name starts with `spec` |
| `Generation.Versioned.SetGeneration` | database-common/src/models/gen.rs:14-28 | the generation may stay or grow; otherwise an error, and nothing changes |
| `Generation.Versioned.SetRevision` | database-common/src/models/gen.rs:42-57 | the revision must grow; otherwise an error, and nothing changes |
| `Generation.Versioned.AdvanceFrom` | database-common/src/models/gen.rs:81-100 | the loop over the paths leaves the counters, and the error, that the set of paths determines |
| `Generation.Versioned.AdvanceRevision` | database-common/src/models/gen.rs:102-104 | one more revision, or an error at the end of `u64` |
| `Generation.AdvancesByOne` | database-common/src/models/gen.rs:81-100 | counters that do not run ahead advance by one revision, and by one generation exactly if the specification changed |
| `Generation.AdvancesOrFails` | database-common/src/models/gen.rs:81-100 | advancing succeeds exactly if neither counter runs ahead of what it should become, and no counter ever decreases |
| `Auth.PermissionsAreNested` | database-common/src/auth.rs:24-74 | owner implies admin implies write implies read, for every user, owner and member map |
| `Auth.PermissionsAreRoles` | database-common/src/auth.rs:24-74 | each permission is granted exactly to admins, without an owner to everybody, to the owner, and to members with one of its roles |
| `Registry.EntityIsWellFormed` | device-management-service/src/service/mod.rs:95-153 | the converted entity has the aliases of its stored data, dot-free sections, zero counters and always the nil uid |
| `Registry.EntityIsSubmitted` | device-management-service/src/service/mod.rs:95-153 | the entity has the labels, annotations, finalizers, specification and status that were submitted, each where it belongs, the status of the trust anchors, and exactly the aliases of name and trust anchors |
| `Registry.VersionsAreChecked` | device-management-service/src/service/utils.rs:11-94 | an update passes exactly if each expectation is empty or denotes the current value, and then is constrained to the current values |
| `Registry.NewApp` | registry-events/src/lib.rs:127-158 | one event per path, or one for the whole object; distinct paths give distinct events |
| `Registry.Store.InsertAliases` | database-common/src/models/app.rs:219-243 | succeeds exactly if no alias is taken or given twice, and then adds exactly these rows |
| `Registry.Store.UpdateRecord` | database-common/src/models/app.rs:409-464 | replaces the record, and its alias rows if new ones are given |
| `Registry.Store.StoreChange` | device-management-service/src/service/mod.rs:257-284 | a change that was found is stored under the next counters with its aliases, and gives one event per path; or the error that the counters or aliases cause |
| `Registry.Store.PerformUpdateApp` | device-management-service/src/service/mod.rs:213-285 | the outcome, the state and the events of an update, by all its branches: missing, unauthorized, conflicting, removed, unchanged, changed; no event twice unless sections collide |
| `Registry.Store.UpdateApp` | device-management-service/src/service/management/mod.rs:220-253 | a whole transaction: on any error neither records, aliases nor outbox change; otherwise all events, and none twice unless sections collide, are in the outbox |
| `Registry.Store.CheckCleanApp` | device-management-service/src/service/mod.rs:288-324 | removes the finalizer of a deleted application without devices, and drops the events |
| `RegistryRuns.TwoSectionsDoNotCollide` | device-management-service/src/service/mod.rs:127-153 | the two sections of stored applications do not collide |
| `RegistryRuns.RunKeepsInv` | device-management-service/src/service/mod.rs:213-324 | in every run: records are stored under their name, have two sections and bounded counters, and the alias index is exact |
| `RegistryRuns.AliasIndexIsExact` | database-common/src/models/app.rs:219-243 | after any run the alias rows are exactly those that the stored names and specifications call for, and each alias belongs to one application |
| `RegistryRuns.LookupIsExact` | database-common/src/models/app.rs:251-278 | a lookup finds an application exactly by the aliases it must have, and at most one |
| `RegistryRuns.AcceptedUpdateIsIndexed` | device-management-service/src/service/mod.rs:251-273 | an accepted update leaves the aliases of the submitted application, even when it found nothing to change |
| `RegistryRuns.UpdateAdvances` | device-management-service/src/service/mod.rs:213-285 | an effective update raises the revision by one, and the generation by one exactly if some spec key differs from what was submitted; the record then is what was submitted, and nothing else of it or of others changes |
| `RegistryOutcomes.UpdateIsRefused` | database-common/src/auth.rs:63-66 | in every run an update is refused exactly if the record is there and the user is neither an admin, nor its owner if it has one, nor a member who is an admin or manager |
| `RegistryOutcomes.DeleteIsRefused` | device-management-service/src/service/management/mod.rs:276-283 | the same for deletes, which take a member who is an admin, and a record that is not marked |
| `RegistryOutcomes.UpdateOutcome` | device-management-service/src/service/mod.rs:213-285 | which of missing, refused, conflicting, removed, unchanged and changed an update is, in every run, by the record, the user, the expectations, what was submitted and the aliases of others |
| `RegistryOutcomes.CreateOutcome` | device-management-service/src/service/management/mod.rs:117-161 | a creation succeeds exactly if neither name nor alias is taken; the record belongs to its creator, starts at zero without members or mark, and is what was submitted |
| `RegistryOutcomes.DeleteOutcome` | device-management-service/src/service/management/mod.rs:255-338 | a delete is missing, refused, conflicting, a removal, or a mark with time, version, next revision and the finalizer for devices, in every run, by what is there |
| `RegistryRuns.RemovalNeedsMark` | device-management-service/src/service/management/mod.rs:255-338 | in every run a record goes, and goes alone, only by a delete that finds neither finalizers nor devices, or by an update or clean-up of a marked record that leaves no finalizer |
| `RegistryRuns.MarksAreFinal` | device-management-service/src/service/mod.rs:213-324 | while a record lives its identity stays, its revision never falls and its deletion mark never clears |
| `RegistryRuns.AtMostOneUpdateWins` | device-management-service/src/service/utils.rs:46-94 | of two updates that expect the same version, however spelled, anywhere in a run, at most one takes effect |
| `Pipeline.OpChangesParts` | device-management-service/src/service/mod.rs:213-285 | an operation leaves a surviving record alone, or advances it by one revision and reports exactly the parts that changed |
| `Pipeline.EveryChangeIsNotified` | device-management-service/src/service/mod.rs:341-355 | in every run, the last change of each part of a record, under a uid of this very record, is in its outbox row or, without a row, was seen; exactly unless a clean-up made it, which happens to metadata only |
| `Pipeline.RunKeepsGlobal` | device-management-service/src/service/management/mod.rs:117-161 | under either uid policy and with new uids for new records, the invariant holds in every run for each key that never had the nil uid |
| `Pipeline.IncarnationIsNotified` | device-management-service/src/service/mod.rs:255-270 | in every run of the whole system and under either uid policy, the guarantee holds for each life of a record before which no entry for the part bore the nil uid |
| `Pipeline.EveryIncarnationIsNotified` | device-management-service/src/service/management/mod.rs:528-529 | with the uid of the record in each event, the guarantee spans deletion and re-creation without any such condition |
| `Pipeline.FirstIncarnationIsNotified` | device-management-service/src/service/mod.rs:255-270 | under either policy it holds for each life of a record before which the part had no entry, whatever else the system did |
| `Losses.SafeExactly` | database-common/src/models/outbox.rs:73-184 | in a state whose row and wire hold only what was created, a change stays in its row until delivered, whatever follows, if and only if it is there and no created entry has its key and uid and a greater stored revision |
| `Losses.LostExactly` | device-management-service/src/service/mod.rs:255-270 | in every run, an update during the life of a record is safe, whatever follows, if and only if no entry written before the record was created has the key and uid of its events and a greater stored revision |
| `Losses.RealUidsAreSafe` | device-management-service/src/service/management/mod.rs:528-529 | so with the uid of the record in each event every update is safe |
| `Losses.RecreationLosesChange` | device-management-service/src/service/mod.rs:125-135 | if an application is deleted and created again while a nil-uid row with a revision above 1 is in the outbox, the first update of that part is not notified |
| `Lifecycle.TurnsAreNotified` | device-management-service/src/service/management/mod.rs:255-338 | in every run and under either policy, the last creation or removal of an application is in its outbox row or, without a row, was seen; exactly unless an update or clean-up removed it |
| `Pipeline.CleanUpIsSilent` | device-management-service/src/service/mod.rs:288-324 | a clean-up never writes to the outbox, and changes a surviving record, its metadata only, if and only if the record is marked, has no devices, and has the finalizer for devices and another one |
| `Pipeline.UpdateIsTransaction` | device-management-service/src/service/management/mod.rs:220-253 | the code of an update, on records and outbox table, is a transaction step of the system with the events it sends, none of them twice |
| `DeviceState.ExpiryIsExact` | device-state-service/src/service/postgres.rs:70-95 | the promised expiry is kept at every moment exactly for timeouts of whole milliseconds |
| `DeviceState.Service.Init` | device-state-service/src/service/postgres.rs:70-95 | adds the session, and promises its expiry |
| `DeviceState.Service.SendEvent` | device-state-service/src/service/postgres.rs:517-536 | an accepted event is published; a misconfigured application is tolerated without one; anything else is an error |
| `DeviceState.Service.CreateState` | device-state-service/src/service/postgres.rs:97-174 | a free device gets a row and a connected event; for a taken one the row is marked as lost; errors leave the tables |
| `DeviceState.Service.DeleteState` | device-state-service/src/service/postgres.rs:176-216 | only the holder's session and token remove the row, with its events; errors leave the tables |
| `DeviceState.Service.SendDisconnectFromDelete` | device-state-service/src/service/postgres.rs:416-469 | the last will, if wanted and present, and then the disconnected event; nothing for a missing application |
| `DeviceState.Service.Ping` | device-state-service/src/service/postgres.rs:218-283 | succeeds exactly for a live session, which it prolongs, and lists each lost device of the session once |
| `DeviceState.Service.PruneOne` | device-state-service/src/service/postgres.rs:373-411 | removes the session and all its rows with their events; if anything fails, the session and all its rows stay |
| `DeviceState.Service.NextExpired` | device-state-service/src/service/postgres.rs:333-371 | finds the longest expired session, or none exactly if all are alive |
| `DeviceState.Service.Prune` | device-state-service/src/service/postgres.rs:333-371 | ends, removes expired sessions with their rows and only those, and without failure leaves no expired one |
| `DeviceStateRuns.OnlyReleaseEndsLease` | device-state-service/src/service/postgres.rs:176-216 | a step that removes a row is a delete with its session and token, or the pruning of its session |
| `DeviceStateRuns.LeaseIsExclusive` | device-state-service/src/service/postgres.rs:97-216 | any other step, and any that is rolled back, leaves the row but for its mark; no create gets the device, and one that gets through is told that it is occupied |
| `DeviceStateRuns.LeaseHolds` | device-state-service/src/service/postgres.rs:97-329 | over any run in which the row is not removed, whatever was tried, the lease stays; it is lost exactly if a create contended, and then, and only then, `get` finds nothing and pings of its session list the device |
| `DeviceStateRuns.CreateAnswers` | device-state-service/src/service/postgres.rs:97-174 | the answer to a create by lookup, publish, commit, session and row |
| `DeviceStateRuns.DeleteAnswers` | device-state-service/src/service/postgres.rs:176-216 | a delete is answered the same whether or not there was a row, unless it fails |
| `DeviceStateRuns.CreatedStartsLease` | device-state-service/src/service/postgres.rs:97-174 | a `Created` answer means the device was free and now has the caller's row, which `get` returns |
| `DeviceStateRuns.RowsHaveSessions` | device-state-service/src/service/postgres.rs:373-411 | in every run no row outlives its session |
| `DeviceStateRuns.StepPublishes` | device-state-service/src/service/postgres.rs:416-536 | all that a step publishes for a device, in order and with its contents, by the answers of the world |
| `DeviceStateRuns.WillIsPublished` | device-state-service/src/service/postgres.rs:453-489 | from the creation of a state with a last will on, the step that removes it publishes that very will once, and then the disconnect, each exactly if the world accepts it |
| `DeviceStateRuns.StepTruth` | device-state-service/src/service/postgres.rs:97-216 | a create, delete or prune keeps the connection events of a device truthful if and only if it publishes the event and commits the change, or does neither; stated on the answers of lookup, publish and commit |
| `DeviceStateRuns.TruthExactly` | device-state-service/src/service/postgres.rs:333-469 | in every run, whatever fails, the events alternate from connected on and always tell whether there is a row, if and only if every step is like that |
| `DeviceStateRuns.ConnectionEventsAlternate` | device-state-service/src/service/postgres.rs:97-216 | so it is if the device's application stays registered, its publishes are accepted and commits succeed; other applications may be missing or misconfigured |
| `DeviceStateRuns.FailedPruneRepeatsDisconnect` | device-state-service/src/service/postgres.rs:373-411 | whenever a prune publishes the disconnect of a device and does not commit, session and rows stay, and the prune that commits announces it a second time |
| `DeviceStateRuns.ExpiredStaysExpired` | device-state-service/src/service/postgres.rs:218-283 | with a clock that does not run backwards, no ping revives an expired session |
| `DeviceStateRuns.KeptAliveIsNotPruned` | device-state-service/src/service/postgres.rs:333-371 | if time does not run backwards and each ping comes within a timeout of the one before, the session is never pruned whatever prunes are attempted, and all its pings succeed |
| `Commands.Dispatcher.Subscribe` | endpoint-common/src/command/commands.rs:120-176 | adds the normalised subscription under an id that is free in its inner map |
| `Commands.SubscribeAndSend` | endpoint-common/src/command/commands.rs:120-176 | after subscribing, a command reaches the new subscription exactly if its caller asked for it: application, gateway, device (absent, the gateway, or the command's) and a valid matching name filter, if any; nothing changes for others |
| `Commands.SubscriberIsReached` | endpoint-common/src/command/commands.rs:129-139 | and so it stays, whatever other subscriptions come and go |
| `Commands.Dispatcher.Unsubscribe` | endpoint-common/src/command/commands.rs:178-256 | removes the subscription, and its inner map if that becomes empty |
| `Commands.Dispatcher.Dispatch` | endpoint-common/src/command/commands.rs:294-317 | sends to each target of an inner map whose filter passes, once, and counts them |
| `Commands.Dispatcher.Send` | endpoint-common/src/command/commands.rs:261-290 | sends to exactly the live subscriptions that want the command, each once |
| `Commands.SubscribeRefines` | endpoint-common/src/command/commands.rs:215-240 | on the index, subscribing is adding to the plain list |
| `Commands.UnsubscribeRefines` | endpoint-common/src/command/commands.rs:242-256 | on the index, unsubscribing is removing from the plain list |
| `Commands.IndexIsCanonical` | endpoint-common/src/command/commands.rs:120-256 | two indexes for the same subscriptions are the same maps |
| `Commands.IndexRefinesList` | endpoint-common/src/command/commands.rs:120-256 | after any interleaving the index stands for the list of live subscriptions, and no inner map is empty |
| `Commands.EveryIndexRefinesList` | endpoint-common/src/command/commands.rs:113-118 | so it is in every run from the empty dispatcher |
| `Commands.UnsubscribeUndoesSubscribe` | endpoint-common/src/command/commands.rs:178-213 | unsubscribing leaves the very maps of the run without the subscription, whatever others did in between |
| `CommandDelivery.EventRoundTrip` | endpoint-common/src/command/mod.rs:37-108 | a published command event is read back as the command for its target, with name and body |
| `CommandDelivery.EventsAreRead` | endpoint-common/src/command/mod.rs:37-108 | what any event is read as, or why not; without a sender the device is its own gateway |
| `CommandDelivery.ProcessCommand` | integration-common/src/commands/mod.rs:24-108 | what is published, which external endpoint is called and what is answered, for disabled devices, external commands and refused publishes too |
| `CommandDelivery.DeliverAll` | endpoint-common/src/command/source.rs:53-66 | of the events of one request each subscription gets those for its gateway that it wants, as often as that gateway is a target, and no other |
| `CommandDelivery.WhoIsReached` | integration-common/src/commands/mod.rs:38-72 | with distinct targets that is once for the subscriptions of the device itself or an enabled gateway whose filters match, and never for others |
| `CommandDelivery.HandleRequest` | integration-common/src/commands/mod.rs:24-108 | from the request to the channels: nothing for disabled devices and external commands; else what was published before the first refusal is delivered, and without one exactly the matching subscriptions get the command, once each |
| `Select.ClauseMeansCondition` | database-common/src/models/sql.rs:87-216 | in three-valued logic a clause is true exactly if its condition holds directly; NotEq, and NotIn with a list, need the label |
| `Select.CompiledMeansConditions` | database-common/src/models/sql.rs:87-216 | the built clauses select a row exactly if the base does and all conditions hold; all placeholders lead to their parameters |
| `Select.ParamsFollowBase` | database-common/src/models/sql.rs:27-43 | the parameters of the conditions come after those of the base, each with the type for its kind |
| `Select.SelectBuilder.HasWhere` | database-common/src/models/sql.rs:45-49 | the statement then continues with AND |
| `Select.SelectBuilder.EnsureWhereOrAnd` | database-common/src/models/sql.rs:51-58 | WHERE the first time, and AND ever after |
| `Select.SelectBuilder.Push` | database-common/src/models/sql.rs:141-150 | connective, clause, parameters and types are in step with the conditions asked for |
| `Select.SelectBuilder.Name` | database-common/src/models/sql.rs:141-150 | adds the name condition, if there is a name |
| `Select.SelectBuilder.Label` | database-common/src/models/sql.rs:155-212 | adds the condition of one label operation |
| `Select.SelectBuilder.Labels` | database-common/src/models/sql.rs:153-216 | adds the conditions of all label operations, in order |
| `Select.SelectBuilder.AuthRead` | database-common/src/models/sql.rs:87-138 | adds the read restriction, unless there is no user or an admin |
| `Select.SelectBuilder.Build` | database-common/src/models/sql.rs:218-240 | the statement is the base, one WHERE, ANDs, and then order, limits and lock |
| `SelectText.ClausePlaceholders` | database-common/src/models/sql.rs:87-216 | the placeholders that can be read in the text of any clause are exactly its positions, in order |
| `SelectText.BuiltPlaceholders` | database-common/src/models/sql.rs:218-240 | those in the text of a whole statement, order, limits and lock included, are those of its base and then those of its clauses |
| `SelectText.CompiledPositions` | database-common/src/models/sql.rs:141-216 | and the latter are exactly the positions of the parameters that the conditions pushed |
| `SelectText.ClauseReadsBack` | database-common/src/models/sql.rs:87-216 | the text of every clause, its operators, negations and role list included, reads back as the clause |
| `SelectTail.TailReadsBack` | database-common/src/models/sql.rs:218-240 | order, limits and lock read back, line by line, from the end of the statement |
| `Select.AuthReadAgrees` | database-common/src/models/sql.rs:87-138 | the read restriction agrees with the authorization rule, except in three cases that are listed, and in these it does not; for the NULL column of applications that were never shared too |
| `Select.AuthReadAgreesForOwned` | database-common/src/auth.rs:24-74 | so they agree for owned applications that are not shared with the anonymous user |
| `Token.TableStepIsBitSerial` | access-token-service/src/rng.rs:74 | the byte-wise table step of CRC-32 is eight rounds of the bit-serial register |
| `Token.RegisterIsInjective` | access-token-service/src/rng.rs:74 | equal bytes never make different register states equal |
| `Token.FourBytesAreInjective` | access-token-service/src/rng.rs:74 | four bytes that differ in any way lead to different states |
| `Token.BurstChangesCrc` | access-token-service/src/rng.rs:38 | any change confined to four adjacent bytes changes the CRC |
| `Token.EncodeIsInjective` | access-token-service/src/rng.rs:39 | base 62 is injective |
| `Token.EncodeReadsBack` | access-token-service/src/rng.rs:39 | a base 62 text, digits before upper case before lower case letters, denotes the number it was made of |
| `Token.ChecksumDenotesCrc` | access-token-service/src/rng.rs:38-39 | the checksum denotes the CRC of the key |
| `CrcRemainder.CrcIsRemainder` | access-token-service/src/rng.rs:74-75 | the CRC, complemented, is congruent to the message times x to the 32nd, with its first 32 bits complemented, modulo the generator of section 3.2.9 of IEEE 802.3, and of a degree below 32 |
| `CrcRemainder.RemainderIsUnique` | access-token-service/src/rng.rs:74-75 | no two polynomials of a degree below 32 are congruent, so that is the remainder |
| `Token.ChecksumIsShort` | access-token-service/src/rng.rs:5-9 | the checksum has one to six characters, so tokens fit their maximum length |
| `Token.ValidTokens` | access-token-service/src/rng.rs:58-82 | the valid tokens are exactly the marked keys of the right length followed by their own checksum, and the answer is their prefix |
| `Token.TokenRoundTrip` | access-token-service/src/rng.rs:35-46 | a serialized token is prefix, underscore, key and checksum; it is valid, and gives its prefix back |
| `Token.CorruptionIsDetected` | access-token-service/src/rng.rs:58-82 | a valid token changed only within four adjacent bytes of its first 41, or only in its checksum, is rejected |
| `Streamer.ArrayStreamer.PollNext` | device-management-service/src/endpoints/streamer.rs:54-98 | the new phase and the answer of one poll, for pending polls, item errors and encoding errors too |
| `Streamer.ArrayStreamer.Collect` | device-management-service/src/endpoints/streamer.rs:54-98 | for any poll schedule the chunks together are the bracketed, comma-separated encoded items, or that up to where the stream is; every error is passed on |
| `Streamer.OnePoll` | device-management-service/src/endpoints/streamer.rs:54-98 | what a poll appends is what the longer schedule's text has more |
| `Streamer.WrittenReadsBack` | device-management-service/src/endpoints/streamer.rs:54-98 | the finished text, an array by section 5 of RFC 8259, reads back as exactly the items |
| `KafkaNames.NamesAreLegal` | service-api/src/kafka/mod.rs:113-132 | every name has 1 to 63 characters out of `[-a-z0-9]` and does not end in a dash |
| `KafkaNames.PlainNames` | service-api/src/kafka/mod.rs:99-120 | a label that is short enough is used as it is, after the word for its kind |
| `KafkaNames.HashedNamesStart` | service-api/src/kafka/mod.rs:105-120 | all other names start with the word for the hashed kind, and the hash |
| `KafkaNames.SimpleRoute` | service-api/src/kafka/mod.rs:99-104 | on the simple route nothing is cut off |
| `KafkaNames.HashedRoute` | service-api/src/kafka/mod.rs:105-110 | on the other route the prefix and the whole hash survive |
| `KafkaNames.CollisionsAreExact` | service-api/src/kafka/mod.rs:92-132 | two names are equal exactly if they are of one kind, both simple, and equal after cleaning up, unless MD5 collides |
| `KafkaNames.NamesAreDistinct` | service-api/src/kafka/mod.rs:92-132 | distinct kinds and applications get distinct names, for all application names without a backslash |
| `KafkaNames.BackslashCollides` | service-api/src/kafka/mod.rs:94-104 | every simple name with a backslash has another application's name as its twin |
| `KafkaNames.BackslashDotCollides` | service-api/src/kafka/mod.rs:94-104 | for example `a\.b` and `a--b` |

## Left out

* PostgreSQL, Kafka, connection pools and the asynchronous runtime. Tables are maps, transactions are atomic steps, and Kafka is a set of events or a log per partition. Row locks appear only as the atomicity of a step; skipping locked sessions while pruning is not modelled, nor are rebalances of consumer groups and expired log segments.
* The database schema. Assumed of it: the keys named in the conflict clauses, that an alias is unique, that sessions exist for the states that refer to them, and that the alias rows of a removed application go with it (`ON DELETE CASCADE`, `database-common/migrations/00000000000000_init/up.sql:18`).
* Library code is a parameter: parsing of UUIDs and certificates, MQTT topic matching (section 4.7 of MQTT 5.0), MD5, and lower case, which is taken to map each character to one. SHA-3 hashes of tokens are not modelled. JSON numbers are compared by their text.
* Freshness of UUIDs and random ids is a hypothesis, or the choice of an unused one.
* Devices as registry records. They go through the same diff, counters and outbox, and differ in the uid of their events, which is a parameter of the pipeline.
* Registry events as CloudEvents, and the reconcilers that read them.
* Transferring ownership and setting members, which do not change the resource version, and creation timestamps.
* Steps of the publish processor, and back-pressure of the bounded command channels: contents and order of deliveries are proved, and not that they happen in time.
* Printing and parsing of user names, which are not inverses of each other.
* Tokens are bytes. For tokens that are not ASCII, `is_valid` may stop at a slice that splits a character.
* The text of SELECT statements is kept as pieces and put together at the end; what a statement means is defined on its clauses, which can be read back from the text.
* SelectTail.TailReadsBack: for sort columns without commas and line breaks.
* Select.SelectBuilder.HasWhere: a call after conditions were added says nothing new, as in the source.
* Consumer.EventStream.Run: a run is followed until it fails or the given polls are used up; a crash in the middle of a call is a step of the state machine.
* Endpoints, operators, the console, TLS, identity providers, configuration and start-up.
