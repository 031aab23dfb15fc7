# DocVault: audit chain, document lifecycle and access, verified

A Dafny model of the parts of DocVault whose correctness is spread over several functions, services or processes,
with proofs of what they promise. `dafny verify dfyconfig.toml` checks everything.

**The audit chain.** Events of an epoch are chained by `hash = SHA-256(prevHash|payload)`. `CanonicalMetadata` and
`CanonicalPayload` say what a payload records; `AuditEvents` what a hash commits to. `AppendProtocol` is the append as
a distributed protocol: any number of writers, every interleaving, reads that return any part of the committed rows,
and a unique index that decides who wins. `ChainOrder` rebuilds the chain from an unordered bag of rows,
`ChainVerifier` checks it, `ChainReport` puts both together and closes the circle from interleaved appends to
verification. `AuditService` is the service object with its retry loop, epochs, incidents and sealing. `ChainRepair`,
`ChainMigration` and `TamperDemo` are the three scripts around it.

**The document.** `Documents` holds the row and the time arithmetic, `RetentionAndTrash` the two nightly jobs,
`DocumentLifecycle` the handlers that change one document, as a class proved against a step function,
`LifecycleLaws` when each request is accepted and what it leaves, in terms of the stored fields, and `LifecycleRuns`
what holds over all runs of these steps. `UploadStorage` joins bucket and version records.

**Who sees what.** `OrgMembership` is the organization service with its cache; `ReadPolicy` compares the list filter
with the detail read.

The hash is a parameter. Results that need it ask for `CollisionFree`: no two texts with one digest, and digests that
are non-empty text without a bar; `AuditEvents.CollisionFreeCanBeMet` shows that this can be met. Safety of the append
protocol does not need it. Dates are milliseconds. Clocks, random ids, failures of the store, verdicts of scanners and
answers of other services are parameters of the methods.

Where the code does not do what its comments promise, the model follows the code:

- `verifyChain` is documented to throw on a broken chain; it returns a result.
- `setApprovalChain` is documented to reset progress; it is refused unless there is none, so nothing is ever reset.
- The payload is meant to be deterministic and is; it is not injective for texts that hold a separator. Under one
  list of keys the exact condition is `CanonicalPayload.PinnedDownIffUnambiguous`; for events, whose keys depend on
  their metadata, it is `CanonicalPayload.HasEventTwinIff`, which every event with metadata meets.
- The rollback delete of an upload is meant for orphaned objects; when the answer to a successful registration is
  lost, it deletes an object a version record refers to (`UploadStorage.UploadKeepsIntegrityIff`), and for good
  (`UploadStorage.RunKeepsIntegrityIff`).
- Membership changes are meant to invalidate the cache; a reassignment whose creation fails does not
  (`OrgMembership.StepKeeps`, reached in `OrgMembership.StaleIsReachable`, over within a minute by
  `OrgMembership.WrongAnswersAreShort`).
- The list and the detail read are meant to agree; for plain group names and entries as the ACL service stores them
  they differ in exactly three situations, each of which happens (`ReadPolicy.ListVersusRead`).
- "An org must keep one admin" holds for role changes and removals, not for adding a member
  (`OrgMembership.AddTakesLastAdminIff`).
- The migration leaves `prevHash` of the first event undefined; whether the service accepts the result depends on how
  the driver writes that (`ChainMigration.MigratedVerifies`).

## Model

| member | source | states |
|---|---|---|
| `Prelude.TrimIs` | services/audit-service/src/audit/audit.service.ts:797-803 | trimming, as used for key ids, names and reasons, takes the white space off both ends, all of it and nothing else |
| `CanonicalMetadata.SameTextIffSameMeaning` | services/audit-service/src/audit/audit.service.ts:745-778 | two metadata values have one canonical text exactly if they are equal up to key order at every depth, absent, null and empty metadata being one; `__proto__` keys count for nothing |
| `CanonicalMetadata.SameTextIffSameTree` | services/audit-service/src/audit/audit.service.ts:745-778 | without `__proto__` keys only the order of keys is forgotten |
| `CanonicalMetadata.ProtoIsNotCovered` | services/audit-service/src/audit/audit.service.ts:769-774 | assignment to `__proto__` makes no property, so objects that differ below such a key share their canonical text |
| `CanonicalMetadata.SortIsOrdered` | services/audit-service/src/audit/audit.service.ts:757-778 | sorting keeps the value, yields keys in order at every depth, and well-formed JSON |
| `CanonicalMetadata.OrderedIsDetermined` | services/audit-service/src/audit/audit.service.ts:757-778 | a sorted value is determined by what it denotes |
| `CanonicalMetadata.StringifyIsPrefixFree` | services/audit-service/src/audit/audit.service.ts:754 | the written text determines the value, even with other text behind it |
| `CanonicalMetadata.UnquoteInverts` | services/audit-service/src/audit/audit.service.ts:754 | reading an escaped string back gives the string and the text after it |
| `CanonicalMetadata.CompoundsAreJoined` | services/audit-service/src/audit/audit.service.ts:754 | arrays and objects are written as the comma-joined texts of their parts between brackets, each key quoted before its value; scalars by name |
| `CanonicalMetadata.KeyOrder` | services/audit-service/src/audit/audit.service.ts:768-774 | of two keys, array indices come first and by number, other keys behind them by their first differing character |
| `CanonicalMetadata.IndexIff` | services/audit-service/src/audit/audit.service.ts:768-774 | the indices are the printed numbers below 2^32 - 1 |
| `CanonicalPayload.PinnedDownIffUnambiguous` | services/audit-service/src/audit/audit.service.ts:728-738 | under one list of keys, other values make the same payload exactly if some value holds the separator before it or the one after it |
| `CanonicalPayload.HasEventTwinIff` | services/audit-service/src/audit/audit.service.ts:283-298 | another event with the same payload that records something else exists exactly if the event carries metadata, or some text of it holds the separator before or after its field, or its address ends in a metadata field |
| `CanonicalPayload.PayloadDeterminesRecord` | services/audit-service/src/audit/audit.service.ts:728-755 | for events whose texts hold no separator the payload determines every field up to null, absent, empty and array joining, and the canonical metadata |
| `CanonicalPayload.SameShapeSameRecord` | services/audit-service/src/audit/audit.service.ts:728-738 | if both events carry metadata or both lack it, one without separators is enough |
| `CanonicalPayload.BarFreeIsClean` | services/audit-service/src/audit/audit.service.ts:728-738 | texts without a bar hold no separator |
| `CanonicalPayload.ReasonRunsIntoResource` | services/audit-service/src/audit/audit.service.ts:728-738 | for every event: moving text with a separator from the reason to the resource id leaves the payload unchanged |
| `CanonicalPayload.AddressRunsIntoMetadata` | services/audit-service/src/audit/audit.service.ts:295-298 | for every event with metadata: an event without metadata and with a longer address has the same payload |
| `CanonicalPayload.ExtraKeyShows` | services/audit-service/src/audit/audit.service.ts:295-298 | a key only one payload has, and no text of the other mentions, tells them apart |
| `CanonicalPayload.CanonicalIsWritten` | services/audit-service/src/audit/audit.service.ts:283-298 | the whole payload, literally: every field's text behind its own key name, in order, metadata only where it has a text |
| `CanonicalPayload.ValuesAreWritten` | services/audit-service/src/audit/audit.service.ts:732-735 | null and undefined are written as nothing, lists with commas between the items |
| `CanonicalPayload.EmptyMetadataIsAbsent` | services/audit-service/src/audit/audit.service.ts:745-752 | absent, null and empty metadata, and scalars without keys, make one payload |
| `CanonicalPayload.MembersAreNotAbsent` | services/audit-service/src/audit/audit.service.ts:745-754 | any other metadata never makes the payload without metadata, for texts without separators |
| `AuditEvents.HashCommitsToInputs` | services/audit-service/src/audit/audit.service.ts:784-790 | one hash determines previous hash and payload |
| `AuditEvents.HashCommitsToHistory` | services/audit-service/src/audit/audit.service.ts:784-790 | one hash determines position, payloads and hashes of everything before it |
| `AuditEvents.HeadCommitment` | services/audit-service/src/audit/audit.service.ts:784-790 | chains with one head hash agree in length and in every payload, hash and link |
| `AuditEvents.ChainHashesDiffer` | services/audit-service/src/audit/audit.service.ts:784-790 | no hash occurs twice in a chain, even for equal payloads |
| `AuditEvents.DistinctIff` | services/audit-service/src/audit/audit.service.ts:1770-1782 | events of a chain are distinct exactly if no two share an id and no id is the hash of an event without one; events without ids never clash |
| `ChainVerifier.VerifyEventSequence` | services/audit-service/src/audit/audit.service.ts:1865-1951 | the verdict: valid with exact counts, or the first broken index, the last trusted hash and which check failed, in the order hash, link, signature |
| `ChainVerifier.VerdictIsUnique` | services/audit-service/src/audit/audit.service.ts:1865-1951 | no second answer meets that specification |
| `ChainVerifier.AcceptedHeadCommitment` | services/audit-service/src/audit/audit.service.ts:1873-1918 | two accepted sequences with one head hash hold the same payloads, hashes and links |
| `ChainVerifier.AcceptedHeadDeterminesRecords` | services/audit-service/src/audit/audit.service.ts:1873-1918 | an accepted sequence shares its head hash with an accepted one that records other fields exactly if one of its events has such a twin |
| `ChainVerifier.CleanHeadsAgree` | services/audit-service/src/audit/audit.service.ts:1873-1918 | two accepted sequences without separators in their texts, with metadata or without, record the same fields if they share a head hash |
| `ChainVerifier.EditsAreLocalized` | services/audit-service/src/audit/audit.service.ts:1873-1918 | editing any number of bodies with all hashes kept is reported at exactly the first one whose payload changed, and not at all if none did |
| `ChainVerifier.EditIsLocalized` | services/audit-service/src/audit/audit.service.ts:1873-1918 | editing one body with all hashes kept is reported at exactly that event, and exactly if the payload changed |
| `ChainVerifier.SignatureOkIff` | services/audit-service/src/audit/audit.service.ts:808-816 | which configured secret a signature is checked against, and what passes without one |
| `ChainVerifier.SignedCountIs` | services/audit-service/src/audit/audit.service.ts:1904-1951 | the signed count is the number of events whose signature can be checked |
| `ChainOrder.OrderEventsByChain` | services/audit-service/src/audit/audit.service.ts:1764-1855 | succeeds exactly if identities are distinct and a chain order exists, returns that order, and names a defect that is there otherwise |
| `ChainOrder.GroupByPrevHash` | services/audit-service/src/audit/audit.service.ts:1767-1787 | indexes the rows by predecessor, or stops at a repeated identity |
| `ChainOrder.WalkFrom` | services/audit-service/src/audit/audit.service.ts:1801-1855 | the walk from the genesis, terminating by the rows not yet visited |
| `ChainOrder.FindUnreached` | services/audit-service/src/audit/audit.service.ts:1840-1843 | the first row in store order that the walk did not reach |
| `ChainOrder.OrderIsUnique` | services/audit-service/src/audit/audit.service.ts:1764-1855 | there is at most one chain order |
| `ChainOrder.ChildrenInOrder` | services/audit-service/src/audit/audit.service.ts:1821-1838 | in a chain order every event has the one child that follows it |
| `ChainOrder.WalkFollows` | services/audit-service/src/audit/audit.service.ts:1804-1838 | every walk is a prefix of the chain order |
| `ChainOrder.CycleRefutes` | services/audit-service/src/audit/audit.service.ts:1806-1817 | a walk that comes back refutes every chain order |
| `ChainOrder.BadEndRefutes` | services/audit-service/src/audit/audit.service.ts:1822-1852 | a fork or a disconnected rest refutes every chain order |
| `AppendProtocol.GetCurrentChainTail` | services/audit-service/src/audit/audit.service.ts:441-467 | the only row no other row names, or an ambiguity |
| `AppendProtocol.TailOfIntact` | services/audit-service/src/audit/audit.service.ts:441-467 | over an intact chain in any row order the tail is the last event |
| `AppendProtocol.AppendSafety` | services/audit-service/src/audit/audit.service.ts:309-357 | for any writers, interleaving and stale or partial reads every epoch is one intact chain from one genesis |
| `AppendProtocol.StepIsSafe` | services/audit-service/src/audit/audit.service.ts:309-357 | each single step keeps that |
| `AppendProtocol.EpochsAreLinear` | services/audit-service/src/mongo/audit-event.schema.ts:75-79 | with a collision-free hash: no fork, no cycle, no repeated hash, exactly one tail |
| `AppendProtocol.FreeKeyIsHead` | services/audit-service/src/mongo/audit-event.schema.ts:75-79 | an insert that passes the unique index extends the current head |
| `AppendProtocol.RetryBound` | services/audit-service/src/audit/audit.service.ts:309-361 | with fresh reads, giving up means nothing was committed and at least 25 other commits in the epoch since the call began; the tail is never ambiguous |
| `AppendProtocol.RunIsAccounted` | services/audit-service/src/audit/audit.service.ts:309-357 | every failed attempt is covered by a commit of another writer |
| `AppendProtocol.RunIsAuthored` | services/audit-service/src/audit/audit.service.ts:309-344 | after any run rows and finished appends correspond one to one: each row holds the body of its append in the epoch that append read |
| `AppendProtocol.WritersBegan` | services/audit-service/src/audit/audit.service.ts:277-298 | every append records what it was called with |
| `AppendProtocol.ReadLaw` | services/audit-service/src/audit/audit.service.ts:441-467 | after a read a writer holds the only row without a successor, nothing yet, or an ambiguity |
| `AppendProtocol.InsertLaw` | services/audit-service/src/audit/audit.service.ts:329-356 | an insert adds one row with the writer's body, epoch and head, or costs an attempt and changes nothing else |
| `AppendProtocol.AttemptsAreCollisions` | services/audit-service/src/audit/audit.service.ts:309-361 | over every run the attempts of an append are its collisions, and it gives up exactly at the 25th |
| `AppendProtocol.FewAppendsNeverGiveUp` | services/audit-service/src/audit/audit.service.ts:31 | with fresh reads, none of up to 25 appends in all ever gives up |
| `AppendProtocol.TakenKeyMeansGrowth` | services/audit-service/src/audit/audit.service.ts:348-353 | a duplicate key means the chain outgrew what was read |
| `ChainReport.VerifyRows` | services/audit-service/src/audit/audit.service.ts:1732-1742 | valid exactly if the bag of rows has a chain order whose first `limit` events are accepted; otherwise a defect of the order, or the verdict on that order |
| `ChainReport.ReportIsUnique` | services/audit-service/src/audit/audit.service.ts:1735-1738 | the report is misordered exactly if there is no chain order, and fits the one there is |
| `ChainReport.TrustIgnoresRowOrder` | services/audit-service/src/audit/audit.service.ts:1735-1738 | the answer does not depend on row order |
| `ChainReport.RunVerifies` | services/audit-service/src/audit/audit.service.ts:1732-1742 | after any interleaved run with distinct ids: any row order recovers the commit order, verifies, checks min(limit, n) and counts every event as signed or unsigned |
| `ChainReport.RunIsOrderly` | services/audit-service/src/audit/audit.service.ts:1732-1742 | the commit order is a chain order of the rows and is accepted |
| `ChainReport.RunTrustedIffDistinctIds` | services/audit-service/src/audit/audit.service.ts:1770-1782 | after any run verification succeeds exactly if event ids are distinct |
| `ChainReport.RepeatedIdIsCommittedButNotTrusted` | services/audit-service/src/audit/audit.service.ts:278 | two appends with one caller-supplied id are both committed and never verify |
| `ChainReport.IntactIsTrusted` | services/audit-service/src/audit/audit.service.ts:1732-1742 | an intact chain with distinct identities and good signatures verifies |
| `ChainReport.OwnSignatureOk` | services/audit-service/src/audit/audit.service.ts:320-324 | what the service signs passes its own signature check |
| `ChainReport.NewEventIsSigned` | services/audit-service/src/audit/audit.service.ts:317-342 | hash, link and signature of what the service inserts, in terms of the configuration |
| `ChainReport.RunSignsAsConfigured` | services/audit-service/src/audit/audit.service.ts:797-816 | over every run: with a key id set, every row carries the trimmed id and the code under its secret, or is unsigned if that secret is missing; without one, the code under the plain secret, or is unsigned |
| `ChainReport.RotationKeepsSignatures` | services/audit-service/src/audit/audit.service.ts:808-816 | after the current key changes, old rows pass as long as the secret they were signed with stays configured |
| `ChainReport.BreakIsFound` | services/audit-service/src/audit/audit.service.ts:1653-1655 | what sealing records: index, event id and last trusted hash of the first fault among the rows verified, or the row at which the order fails |
| `AuditService.Service.AppendEvent` | services/audit-service/src/audit/audit.service.ts:277-361 | the retry loop: succeeds at the first attempt without a rival, gives up exactly if all 25 had one, loses no rival's event |
| `AuditService.Service.AttemptAppend` | services/audit-service/src/audit/audit.service.ts:309-356 | one read, compute and insert |
| `AuditService.Service.Insert` | services/audit-service/src/mongo/audit-event.schema.ts:79 | insert under the unique (epochId, prevHash) index |
| `AuditService.Service.Create` | services/audit-service/src/audit/audit.service.ts:263-275 | append to the active epoch against any rivals, with the outcome of the retry loop |
| `AuditService.Service.CreateQueued` | services/audit-service/src/audit/audit.service.ts:263-275 | the queue in front of the appends of one process: events are chained in the order of the calls and none fails, without writers elsewhere |
| `AuditService.NoneFailed` | services/audit-service/src/audit/audit.service.ts:263-275 | none fails: each single result is an appended event |
| `AuditService.Service.GetActiveEpochRecord` | services/audit-service/src/audit/audit.service.ts:401-429 | the active record, created on first use |
| `AuditService.Service.VerifyChain` | services/audit-service/src/audit/audit.service.ts:1732-1742 | the report on the active epoch |
| `AuditService.Service.SealCompromisedChainAndStartEpoch` | services/audit-service/src/audit/audit.service.ts:1622-1726 | refuses exactly if the chain verifies; otherwise one incident, one compromised epoch, one new active epoch that verifies with one event, other epochs untouched; incident and epoch record index, event and last trusted hash of the break |
| `AuditService.Service.OpenRecoveryEpoch` | services/audit-service/src/audit/audit.service.ts:1645-1695 | incident, compromised record with the break, and new record keep the epoch list in shape |
| `AuditService.OneActiveOneIncidentEach` | services/audit-service/src/audit/audit.service.ts:1622-1726 | exactly one active epoch, and one incident for each compromised one |
| `AuditService.AncestorsDescend` | services/audit-service/src/audit/audit.service.ts:1689 | following previousEpochId visits every older epoch once and stops at the first |
| `AuditService.SealKeepsEpochList` | services/audit-service/src/audit/audit.service.ts:1652-1695 | sealing keeps the shape of the epoch list |
| `AuditService.NewEpochIsTrusted` | services/audit-service/src/audit/audit.service.ts:1698-1718 | a new epoch with its announcement verifies for every limit and row order |
| `AuditService.VerdictIsLocal` | services/audit-service/src/audit/audit.service.ts:1735 | replacing any run of rows of other epochs by any rows of other epochs leaves the rows and the verdict of this one as they were |
| `AuditService.InsertOutcome` | services/audit-service/src/audit/audit.service.ts:329-353 | the key of the head read before is free exactly if nothing was committed since |
| `AuditService.RecoveryFollows` | services/audit-service/src/audit/audit.service.ts:1645-1695 | incident and compromised epoch both hold that break, and nothing else of the collections is changed |
| `AuditService.SealedEpochsAre` | services/audit-service/src/audit/audit.service.ts:1662-1695 | the epoch list after sealing, record by record |
| `AuditService.FirstUseCreatesDefault` | services/audit-service/src/audit/audit.service.ts:401-429 | the first use creates one active epoch named default, later uses nothing |
| `ChainRepair.FindFirstBroken` | services/audit-service/scripts/repair-audit-chain.ts:197-214 | the first event not chained to the one before, or none exactly if the chain is intact |
| `ChainRepair.RecomputeFrom` | services/audit-service/scripts/repair-audit-chain.ts:228-269 | the updates are those of the recomputed chain |
| `ChainRepair.Collection.Repair` | services/audit-service/scripts/repair-audit-chain.ts:144-382 | rows become the recomputed chain, the closing scan accepts, and no other case touches a row |
| `ChainRepair.Collection.ApplyAll` | services/audit-service/scripts/repair-audit-chain.ts:307-332 | writing the updates one after the other |
| `ChainRepair.Collection.UpdateOne` | services/audit-service/scripts/repair-audit-chain.ts:322-325 | each update changes the one row with its key |
| `ChainRepair.UpdatesProduceRelinked` | services/audit-service/scripts/repair-audit-chain.ts:249-332 | the updates produce the recomputed chain |
| `ChainRepair.RelinkedKeepsContent` | services/audit-service/scripts/repair-audit-chain.ts:309-320 | only hash, link and signature fields change |
| `ChainRepair.RelinkedIsIntact` | services/audit-service/scripts/repair-audit-chain.ts:347-378 | the recomputed chain passes the scan |
| `ChainRepair.RelinkFromBreak` | services/audit-service/scripts/repair-audit-chain.ts:245-269 | rows before the first break stay as they are |
| `ChainRepair.UpdatesFromBreak` | services/audit-service/scripts/repair-audit-chain.ts:245-269 | and ask for no update |
| `ChainRepair.RepairTwice` | services/audit-service/scripts/repair-audit-chain.ts:197-219 | a second repair changes nothing, and repair changes nothing exactly if the chain is intact |
| `ChainRepair.UpdatedIffDifferent` | services/audit-service/scripts/repair-audit-chain.ts:256-265 | a row is updated exactly if its hash or link differs from the recomputed one |
| `ChainRepair.ServiceAcceptsRepaired` | services/audit-service/src/audit/audit.service.ts:1904-1935 | for every limit, the service accepts a repaired epoch exactly if, of the rows it looks at, those in place have signatures that fit and the others carry or get one that fits the new hash or that it cannot check |
| `ChainRepair.UnsignedRepairIsAccepted` | services/audit-service/src/audit/audit.service.ts:1904-1935 | an unsigned epoch is accepted after a repair, for every limit |
| `ChainRepair.RepairLosesSignature` | services/audit-service/scripts/repair-audit-chain.ts:309-320 | a signed row whose hash changes without re-signing no longer passes |
| `ChainMigration.Migrate` | services/audit-service/scripts/migrate-to-mongo.ts:119-179 | for every batch size the result is the unbatched fold over the source |
| `ChainMigration.ChainBatch` | services/audit-service/scripts/migrate-to-mongo.ts:138-173 | one batch chained behind the running hash |
| `ChainMigration.MigrateConcat` | services/audit-service/scripts/migrate-to-mongo.ts:119-179 | migrating a concatenation chains the second part behind the first |
| `ChainMigration.MigratedAt` | services/audit-service/scripts/migrate-to-mongo.ts:138-173 | order and fields are kept and each event is chained to the one before |
| `ChainMigration.ToBodyKeepsFields` | services/audit-service/scripts/migrate-to-mongo.ts:156-168 | no field value is lost |
| `ChainMigration.MigratedRow` | services/audit-service/scripts/migrate-to-mongo.ts:138-173 | every source row arrives at its place with every column in its own field, unsigned and chained |
| `ChainMigration.MigratedVerifies` | services/audit-service/scripts/migrate-to-mongo.ts:168 | the service accepts the migrated chain exactly if the driver wrote the first, undefined link as null |
| `TamperDemo.VerifyAuditChain` | services/audit-service/scripts/audit-tamper-demo.ts:150-207 | the second verifier: sound, or the first event with a wrong hash or link |
| `TamperDemo.VerifiersAgree` | services/audit-service/scripts/audit-tamper-demo.ts:150-207 | it agrees with the service up to signatures, fault by fault and index by index |
| `TamperDemo.SelectNonHeadTamperTarget` | services/audit-service/scripts/audit-tamper-demo.ts:209-219 | the event before the head, or too few events |
| `TamperDemo.TamperShows` | services/audit-service/scripts/audit-tamper-demo.ts:221-227 | the edited reason always changes the payload |
| `TamperDemo.ReasonIsExtended` | services/audit-service/scripts/audit-tamper-demo.ts:221-227 | the edited reason: the old one, or none, and the mark of the demo |
| `TamperDemo.EditIsFound` | services/audit-service/scripts/audit-tamper-demo.ts:167-195 | an edit of one body is found at that event |
| `TamperDemo.Demo.RunDemo` | services/audit-service/scripts/audit-tamper-demo.ts:334-423 | edits only a valid list of two or more, changes one reason, and the second verification stops exactly there |
| `Documents.OverdueMeansDayPast` | services/metadata-service/src/retention/retention.service.ts:220-235 | overdue exactly if a whole day has passed since the end of retention |
| `Documents.StatusByTimeLeft` | services/metadata-service/src/retention/retention.service.ts:194-235 | active with more than 14 days left, due soon from there until a whole day past, overdue after |
| `Documents.StatusWithoutTime` | services/metadata-service/src/retention/retention.service.ts:194-219 | archived and unset, exactly |
| `Documents.RestorableXorPurgeable` | services/metadata-service/src/documents/documents.service.ts:716-728 | at every instant a deleted document can be restored or be purged, never both |
| `Documents.ShownIsRestorable` | services/metadata-service/src/documents/documents.service.ts:674-693 | what the trash shows as recoverable can be restored; the two differ at the purge instant alone |
| `RetentionAndTrash.Store.RunRetention` | services/metadata-service/src/retention/retention.service.ts:73-136 | archives exactly the published, unheld documents a day past retention whose write succeeds, with exact counts |
| `RetentionAndTrash.Store.ListRetentionEvidence` | services/metadata-service/src/retention/retention.service.ts:138-192 | the summary counts |
| `RetentionAndTrash.Store.PurgeExpiredTrash` | services/metadata-service/src/documents/documents.service.ts:825-873 | deletes exactly what is purgeable and can be deleted, with exact counts |
| `RetentionAndTrash.SummaryIsPartition` | services/metadata-service/src/retention/retention.service.ts:168-185 | tracked is the sum of active, due soon, overdue and archived |
| `RetentionAndTrash.RunMovesOverdueToArchived` | services/metadata-service/src/retention/retention.service.ts:73-136 | a run moves its documents from overdue to archived and changes no other count |
| `RetentionAndTrash.NothingDueIsLeft` | services/metadata-service/src/retention/retention.service.ts:80-113 | after a run without failures only documents on hold are overdue |
| `RetentionAndTrash.SecondRunRetries` | services/metadata-service/src/retention/retention.service.ts:102-126 | a second run at the same time archives only what failed before |
| `RetentionAndTrash.SurvivesPurge` | services/metadata-service/src/documents/documents.service.ts:832-868 | a row survives a purge exactly if it was not deleted, could be restored, or its deletion failed |
| `RetentionAndTrash.NothingIsUncounted` | services/metadata-service/src/retention/retention.service.ts:80-136 | every due document is archived or counted as skipped, every purgeable one deleted or counted as failed |
| `RetentionAndTrash.PurgeTwice` | services/metadata-service/src/documents/documents.service.ts:825-873 | a second purge deletes exactly what failed in the first and does not fail again |
| `DocumentLifecycle.Record.UpdateStatus` | services/metadata-service/src/status/status.service.ts:43-119 | the status map with its guards, time stamps and history entry |
| `DocumentLifecycle.Record.SubmitDoc` | services/workflow-service/src/workflow/workflow.service.ts:21-43 | submit |
| `DocumentLifecycle.Record.ApproveDoc` | services/workflow-service/src/workflow/workflow.service.ts:65-119 | approve: the turn in the chain, a step or publication |
| `DocumentLifecycle.Record.AdvanceApprovalStep` | services/metadata-service/src/documents/documents.service.ts:808-818 | one step forward |
| `DocumentLifecycle.Record.RejectDoc` | services/workflow-service/src/workflow/workflow.service.ts:138-162 | reject, leaving the approval step |
| `DocumentLifecycle.Record.ArchiveDoc` | services/workflow-service/src/workflow/workflow.service.ts:181-204 | archive |
| `DocumentLifecycle.Record.DeleteDoc` | services/workflow-service/src/workflow/workflow.service.ts:223-244 | delete |
| `DocumentLifecycle.Record.SetApprovalChain` | services/metadata-service/src/documents/documents.service.ts:749-802 | the chain is set only while pending at step 0, trimmed, non-empty and distinct |
| `DocumentLifecycle.Record.RestoreFromTrash` | services/metadata-service/src/documents/documents.service.ts:700-744 | restore within the window |
| `DocumentLifecycle.Record.UpdateMetadata` | services/metadata-service/src/documents/documents.service.ts:325-414 | classification changes under the data-loss guard |
| `DocumentLifecycle.Record.RegisterVersion` | services/metadata-service/src/versions/versions.service.ts:27-115 | the next version, the scan result and the escalation |
| `DocumentLifecycle.Record.RestoreOldVersion` | services/metadata-service/src/versions/versions.service.ts:179-234 | restoring an old version leaves scan result and classification |
| `DocumentLifecycle.Record.SetLegalHold` | services/metadata-service/src/documents/documents.service.ts:582-636 | holds by admins, with a reason |
| `LifecycleRuns.LifecycleInvariant` | services/metadata-service/src/status/status.service.ts:27-125 | over every run: publishedAt, archivedAt, deletedAt follow the status, retention runs from publication, the history is a path of legal transitions to it, the chain is distinct with the step inside |
| `LifecycleRuns.NextIsConsistent` | services/metadata-service/src/status/status.service.ts:27-125 | each request keeps that |
| `LifecycleRuns.GapsAreRestores` | services/metadata-service/src/documents/documents.service.ts:725-728 | the gaps in the history are exactly the trash restores |
| `LifecycleRuns.PublishedForGood` | services/metadata-service/src/status/status.service.ts:79-93 | publication happens once and lasts; an archived document never changes status again |
| `LifecycleRuns.DeleteThenRestore` | services/metadata-service/src/documents/documents.service.ts:700-728 | deleting and restoring gives back the whole document, exactly within 30 days |
| `LifecycleRuns.ChangeNeedsAuthority` | services/workflow-service/src/workflow/workflow.service.ts:26-31 | only an admin, the owner as editor, an approver by deciding, or the owner by restoring changes a document |
| `LifecycleRuns.ApprovalOrder` | services/workflow-service/src/workflow/workflow.service.ts:80-119 | an approver's approval publishes exactly if the approvals since the chain was set are then the whole chain, in order, each approver once |
| `LifecycleRuns.ApprovalsFollowChain` | services/workflow-service/src/workflow/workflow.service.ts:80-119 | before publication the approvals are the chain up to the step, across rejects, deletes and restores |
| `LifecycleRuns.ChainSetDiscardsNothing` | services/metadata-service/src/documents/documents.service.ts:765-774 | setting the chain never discards an approval |
| `LifecycleRuns.FloorBreaksByOverride` | services/metadata-service/src/documents/documents.service.ts:346-414 | a request takes a document with findings below CONFIDENTIAL exactly if it is an admin override with a non-empty reason |
| `LifecycleRuns.FloorHolds` | services/metadata-service/src/versions/versions.service.ts:53-102 | over every run without such an override the floor holds |
| `LifecycleRuns.JobActsPerDocument` | services/metadata-service/src/retention/retention.service.ts:252-292 | the job treats each document as this step does |
| `LifecycleRuns.RetentionIsFixed` | services/metadata-service/src/status/status.service.ts:79-87 | whatever follows a publication, retention runs from it by the classification of that moment |
| `LifecycleRuns.RetentionIsNeverEarly` | services/metadata-service/src/common/classification.constants.ts:4-12 | the job archives nothing on hold and nothing before 91 days from publication |
| `LifecycleLaws.RefusedChangesNothing` | services/workflow-service/src/workflow/workflow.service.ts:21-261 | a refused request changes nothing |
| `LifecycleLaws.MissingLaw` | services/metadata-service/src/documents/documents.service.ts:252-268 | what each request says about a document that was purged |
| `LifecycleLaws.NewDocument` | services/metadata-service/src/documents/documents.service.ts:289-306 | a new document is an unscanned, unheld draft without versions, approvers, dates and history |
| `LifecycleLaws.SubmitLaw` | services/workflow-service/src/workflow/workflow.service.ts:21-63 | when a submit is accepted, why it is refused, and all it leaves |
| `LifecycleLaws.ApproveAcceptedIff` | services/workflow-service/src/workflow/workflow.service.ts:65-110 | an approval is accepted exactly for a pending document by an admin, or by an approver without a chain or whose turn it is |
| `LifecycleLaws.ApproveRefusals` | services/workflow-service/src/workflow/workflow.service.ts:65-93 | why it is refused otherwise |
| `LifecycleLaws.ApproveTakesEffect` | services/workflow-service/src/workflow/workflow.service.ts:94-119 | one step on, or publication with its time stamps and history entry |
| `LifecycleLaws.ChainAdvances` | services/workflow-service/src/workflow/workflow.service.ts:94-105 | n approvals in order take the chain n steps on |
| `LifecycleLaws.ChainCompletes` | services/workflow-service/src/workflow/workflow.service.ts:80-119 | progress: once the remaining approvers have approved in order, the document is published |
| `LifecycleLaws.OneApprovalPublishes` | services/workflow-service/src/workflow/workflow.service.ts:86 | without a chain one approver is enough |
| `LifecycleLaws.RejectLaw` | services/workflow-service/src/workflow/workflow.service.ts:138-179 | when a reject is accepted and what it leaves |
| `LifecycleLaws.ArchiveLaw` | services/workflow-service/src/workflow/workflow.service.ts:181-221 | when an archiving is accepted and what it leaves |
| `LifecycleLaws.DeleteLaw` | services/workflow-service/src/workflow/workflow.service.ts:223-261 | when a deletion is accepted and what it leaves |
| `LifecycleLaws.SetChainLaw` | services/metadata-service/src/documents/documents.service.ts:749-802 | when a chain is accepted and what it leaves |
| `LifecycleLaws.OneName` | services/metadata-service/src/documents/documents.service.ts:776-778 | one name becomes itself trimmed, or nothing if that is blank |
| `LifecycleLaws.CleanNamesInOrder` | services/metadata-service/src/documents/documents.service.ts:776-778 | lists of names are cleaned one by one, in the order given |
| `LifecycleLaws.NamesKeepPlaces` | services/metadata-service/src/documents/documents.service.ts:776-778 | names that are not blank keep their places |
| `LifecycleLaws.RestoreLaw` | services/metadata-service/src/documents/documents.service.ts:700-744 | when a restore from the trash is accepted and what it leaves |
| `LifecycleLaws.PurgeLaw` | services/metadata-service/src/documents/documents.service.ts:825-873 | what the purge does to one document |
| `LifecycleLaws.ReclassifyLaw` | services/metadata-service/src/documents/documents.service.ts:325-414 | when a reclassification is accepted and what it leaves |
| `LifecycleLaws.CreateVersionLaw` | services/metadata-service/src/versions/versions.service.ts:27-115 | when a version is accepted; scan result, version record, and escalation exactly for findings on an open document |
| `LifecycleLaws.RestoreVersionLaw` | services/metadata-service/src/versions/versions.service.ts:179-255 | when an old version can be restored and what that leaves |
| `LifecycleLaws.ShowsLastScan` | services/metadata-service/src/versions/versions.service.ts:53-102 | over every run a document shows the scan of its last registered upload |
| `LifecycleLaws.FindingsKeepItClosed` | services/metadata-service/src/versions/versions.service.ts:84-95 | over every run: if that scan had findings, the document is CONFIDENTIAL or SECRET unless somebody lowered it since |
| `LifecycleLaws.SetHoldLaw` | services/metadata-service/src/documents/documents.service.ts:582-636 | a hold request leaves the hold it asks for, and when it is refused |
| `LifecycleLaws.HoldLasts` | services/metadata-service/src/retention/retention.service.ts:80-100 | over every run a hold lasts until released, and the job leaves the document alone |
| `LifecycleLaws.RunRetentionLaw` | services/metadata-service/src/retention/retention.service.ts:252-292 | what the job does to one document |
| `LifecycleLaws.ArchivedFrom` | services/metadata-service/src/common/classification.constants.ts:4-12 | after any run from publication the job archives exactly from 731, 366, 181 or 91 days on, by the classification at publication |
| `UploadStorage.KeyIsInjective` | services/document-service/src/storage/storage.service.ts:58-61 | an object key determines document, version and safe name |
| `UploadStorage.DecimalReadsBack` | services/document-service/src/storage/storage.service.ts:58-61 | the version in a key is printed in decimal digits |
| `UploadStorage.SafeCharacters` | services/document-service/src/storage/storage.service.ts:58-61 | which characters of a file name are safe |
| `UploadStorage.UploadedKeysDiffer` | services/document-service/src/storage/storage.service.ts:58-61 | different uploads write different keys |
| `UploadStorage.NextKeyIsUnused` | services/document-service/src/documents/documents.service.ts:46-98 | no record refers to the key the next upload writes |
| `UploadStorage.Platform.CreateDocument` | services/metadata-service/src/documents/documents.service.ts:289-306 | a new document has no version |
| `UploadStorage.Platform.Upload` | services/document-service/src/documents/documents.service.ts:37-159 | put, register, and delete on failure |
| `UploadStorage.Platform.PutObject` | services/document-service/src/storage/storage.service.ts:63-86 | an object is stored under its key |
| `UploadStorage.Platform.DeleteObject` | services/document-service/src/storage/storage.service.ts:132-139 | an object is removed |
| `UploadStorage.Platform.CreateVersion` | services/metadata-service/src/versions/versions.service.ts:46-51 | only the next version is registered |
| `UploadStorage.Platform.RestoreVersion` | services/metadata-service/src/versions/versions.service.ts:179-234 | an old version becomes the next one, pointing at its object |
| `UploadStorage.UploadKeepsIntegrityIff` | services/document-service/src/documents/documents.service.ts:118-158 | an upload keeps versions 1 to current, each with its object and checksum, except exactly if the registration took place, its answer was lost, and the rollback deleted the object |
| `UploadStorage.RestoreKeepsIntegrity` | services/metadata-service/src/versions/versions.service.ts:206-233 | a restore keeps them |
| `UploadStorage.StepAndIntegrity` | services/document-service/src/documents/documents.service.ts:93-158 | every request keeps the records in shape, and every record its object exactly if it is not such a loss |
| `UploadStorage.RunKeepsIntegrityIff` | services/document-service/src/documents/documents.service.ts:93-158 | a serial run keeps integrity exactly if no request of it is such a loss; a loss is never made good |
| `UploadStorage.LossIsReachable` | services/document-service/src/documents/documents.service.ts:149-158 | the loss happens on a first upload |
| `UploadStorage.RunKeepsIntegrity` | services/document-service/src/documents/documents.service.ts:93-158 | in particular over every serial run from empty stores |
| `UploadStorage.UploadReadsBack` | services/document-service/src/documents/documents.service.ts:93-137 | after an upload the current version reads as the file and every other one as before |
| `UploadStorage.RestoreReadsBack` | services/metadata-service/src/versions/versions.service.ts:206-233 | after a restore the current version reads as the restored one |
| `UploadStorage.RestoreAcceptedIff` | services/metadata-service/src/versions/versions.service.ts:191-233 | which versions can be restored, which object the new one points at, and that nothing else changes anything |
| `UploadStorage.VersionsArePermanent` | services/document-service/src/documents/documents.service.ts:93-158 | over every run, losses included, a registered version and its content never change |
| `UploadStorage.RefusedUploadLeavesNoTrace` | services/document-service/src/documents/documents.service.ts:149-158 | over every run without failing rollbacks a refused upload leaves bucket and records exactly as they were |
| `UploadStorage.RunLeavesNoOrphans` | services/document-service/src/documents/documents.service.ts:149-158 | and the bucket holds nothing but what versions refer to |
| `UploadStorage.SafeNameAt` | services/document-service/src/storage/storage.service.ts:58-61 | safe characters of a file name stay, every other one becomes a dash |
| `OrgMembership.OrgService.RequireOrgId` | services/metadata-service/src/org/org.service.ts:41-53 | an unexpired entry or the lookup; the lookup whenever the cache is right |
| `OrgMembership.OrgService.AddMember` | services/metadata-service/src/org/org.service.ts:96-202 | all cases, whatever the cache holds, with the removal of orphan organizations and failing creations |
| `OrgMembership.OrgService.ClearOthers` | services/metadata-service/src/org/org.service.ts:155-178 | orphan organizations go one after the other, the first other one stops it |
| `OrgMembership.OrgService.UpdateMemberRole` | services/metadata-service/src/org/org.service.ts:208-256 | role change, refused for the last admin |
| `OrgMembership.OrgService.RemoveMember` | services/metadata-service/src/org/org.service.ts:262-300 | removal, refused for the last admin |
| `OrgMembership.OrgService.Invalidate` | services/metadata-service/src/org/org.service.ts:303-305 | one user leaves the cache |
| `OrgMembership.StepKeepsOneOrg` | services/metadata-service/src/org/org.service.ts:96-300 | no request, whatever the cache says, gives a user a second organization |
| `OrgMembership.RunKeepsOneOrg` | services/metadata-service/src/org/org.service.ts:96-300 | over every run, failures and stale caches included, no user has a second organization |
| `OrgMembership.StepKeeps` | services/metadata-service/src/org/org.service.ts:171-183 | a right cache stays right exactly if the request is not a move whose creation fails after the old organization was dropped |
| `OrgMembership.StepWrong` | services/metadata-service/src/org/org.service.ts:171-183 | the only wrong entries after a request are older ones and the one such a failure leaves |
| `OrgMembership.RunIsValid` | services/metadata-service/src/org/org.service.ts:41-53 | over every run without such a failure every cache entry, expired or not, is what the lookup returns |
| `OrgMembership.WrongEntriesExpire` | services/metadata-service/src/org/org.service.ts:47-51 | over every run from an empty cache, whatever fails, a wrong entry stems from such a failure and expires within 60 seconds of it |
| `OrgMembership.WrongAnswersAreShort` | services/metadata-service/src/org/org.service.ts:41-53 | so a user is told a wrong organization only within 60 seconds of such a failure |
| `OrgMembership.StaleIsReachable` | services/metadata-service/src/org/org.service.ts:155-183 | a run of two requests over two solo organizations ends in that failure and a wrong answer |
| `OrgMembership.DropKeepsOthers` | services/metadata-service/src/org/org.service.ts:159-178 | dropping an orphan organization changes the lookup of its owner alone |
| `OrgMembership.AddTakesEffectIff` | services/metadata-service/src/org/org.service.ts:96-202 | the user is then in the caller's organization with the role asked for, exactly unless refused or failed |
| `OrgMembership.RemovalTakesEffect` | services/metadata-service/src/org/org.service.ts:262-300 | a removed user was in the caller's organization and has none afterwards |
| `OrgMembership.LastAdminStays` | services/metadata-service/src/org/org.service.ts:307-316 | role changes and removals never take the last admin of any organization |
| `OrgMembership.AddTakesLastAdminIff` | services/metadata-service/src/org/org.service.ts:118-135 | adding a member takes the last admin exactly if told to make that admin a member |
| `OrgMembership.OthersKeepRoles` | services/metadata-service/src/org/org.service.ts:96-316 | no request changes the role of anybody but its subject |
| `OrgMembership.RoleChangeTakesEffect` | services/metadata-service/src/org/org.service.ts:208-256 | a role change that is not refused gives the role asked for |
| `OrgMembership.ChangeAcceptedIff` | services/metadata-service/src/org/org.service.ts:208-316 | refusals of role changes and removals, in order: no organization, no member, last admin |
| `OrgMembership.OtherAdminIffCount` | services/metadata-service/src/org/org.service.ts:307-316 | counting more than one admin is the same as there being another one |
| `OrgMembership.CachedForAMinute` | services/metadata-service/src/org/org.service.ts:41-53 | an answer is served from the cache for exactly 60 seconds |
| `ReadPolicy.ListVersusRead` | services/metadata-service/src/policy/policy.service.ts:404-491 | for plain group names and entries that are not odd for the caller, list and read differ in exactly three situations: a download grant only, a public document for a caller without known role, a pending document for a compliance officer who approves |
| `ReadPolicy.MixedRolesDiffer` | services/metadata-service/src/policy/policy.service.ts:446-453 | the last of these happens: listed, not readable |
| `ReadPolicy.DownloadGrantDiffers` | services/metadata-service/src/policy/policy.service.ts:430-444 | the first happens: readable, not listed |
| `ReadPolicy.StrangerDiffers` | services/metadata-service/src/policy/policy.service.ts:472-474 | the second happens: readable, not listed |
| `ReadPolicy.OddEntryDiffers` | services/metadata-service/src/policy/policy.service.ts:846-848 | an entry for everyone that names somebody is read, but not listed |
| `ReadPolicy.ListIsReadable` | services/metadata-service/src/documents/documents.service.ts:68-253 | for known, unmixed roles and without matching download grants the list is exactly the readable documents |
| `ReadPolicy.ListIsWithinReadable` | services/metadata-service/src/documents/documents.service.ts:68-253 | with download grants it is part of them |
| `ReadPolicy.MatchersAgree` | services/metadata-service/src/policy/policy.service.ts:826-859 | the subject filter and the entry matcher agree on every list without odd entries |
| `ReadPolicy.SubjectsAgreeIff` | services/metadata-service/src/policy/policy.service.ts:1057-1063 | on a single subject the two agree exactly if it is not odd: an id on an entry for everyone, the empty role, another spelling of a group |
| `ReadPolicy.PlainIsNotOdd` | services/metadata-service/src/acl/acl.service.ts:143-153 | entries as the ACL service stores them are never odd |
| `ReadPolicy.VisibleInThreeWays` | services/metadata-service/src/documents/documents.service.ts:147-239 | the visibility clauses come to owner, read grant or role |
| `ReadPolicy.ListInThreeWays` | services/metadata-service/src/documents/documents.service.ts:131-239 | a document is listed exactly if reachable and granted or visible by role |
| `ReadPolicy.ReadInThreeWays` | services/metadata-service/src/policy/policy.service.ts:404-491 | the read decision comes to grant, download grant or role |
| `ReadPolicy.HiddenFromAll` | services/metadata-service/src/policy/policy.service.ts:360-414 | documents of other organizations, deleted and denied ones are shown to nobody; which of them are missing rather than forbidden |
| `ReadPolicy.ShownToGranted` | services/metadata-service/src/documents/documents.service.ts:131-160 | all others to admins, the owner and whoever is allowed to read, in both forms |
| `ReadPolicy.ListTable` | services/metadata-service/src/documents/documents.service.ts:160-239 | the list for everybody else: the table of status, classification and role |
| `ReadPolicy.ReadTable` | services/metadata-service/src/policy/policy.service.ts:446-491 | the same table for the detail read |
| `ReadPolicy.ArchivedAsPublished` | services/metadata-service/src/policy/policy.service.ts:447-470 | archiving a published document changes nobody's view of it |
| `ReadPolicy.AddressesByKind` | services/metadata-service/src/policy/policy.service.ts:1057-1063 | whom an entry addresses, kind by kind, in both forms |
| `ReadPolicy.NormalizingTwice` | services/metadata-service/src/common/request-context.ts:23-32 | normalizing plain group names again changes nothing |
| `ReadPolicy.StoredEntryIsPlain` | services/metadata-service/src/acl/acl.service.ts:143-153 | which entries the ACL service stores are plain |
| `ReadPolicy.StoredIdIs` | services/metadata-service/src/acl/acl.service.ts:143-153 | which subject id is stored, kind by kind |

## Left out

- SHA-256, HMAC and UTF-8 encoding: functions given as parameters; collision freedom is a hypothesis.
- Strings are sequences of Unicode scalar values, so lone surrogates are not modelled; key order is code-point order
  where the program sorts by UTF-16 unit; only `CanonicalMetadata.KeyOrder` says which order it is.
- Metadata is JSON: `Date` values, `undefined` members and non-finite numbers inside metadata are not modelled.
- Legacy audit events without `epochId`, which share the default epoch but not its index key.
- Rows without a `hash` field, and the identity by `_id`, which verification does not load.
- Backoff delays, failures of the store other than a duplicate key, and crashes in the middle of sealing.
- A seal that runs while other instances append: `appendEvent` reads the epoch once, so a sealed epoch may still grow;
  sealing is modelled serially and linearity is claimed epoch by epoch.
- ChainRepair.ServiceAcceptsRepaired: covers one epoch; the script chains all epochs into one list. How the script
  signs is a parameter.
- ChainMigration.MigratedVerifies: the source has no metadata column and no `epochId` is written; the rows are taken as
  rows of the default epoch.
- AuditService.Service.VerifyChain: does not list the compromised epochs beside the report.
- AuditService.Service.CreateQueued: has no writers in other processes; those are in `AppendEvent` and `AppendProtocol`.
- ReadPolicy.ListVersusRead: takes group names that stay as they are once normalized; names such as `/ a`, which
  normalizing changes again, are not covered.
- Interleavings inside one lifecycle, upload or organization handler: each is one atomic step. Only the audit append
  is modelled with real interleaving.
- In `DocumentLifecycle` the read check before a workflow action is a Boolean of the request; title, description and
  tags, notifications and audit events are not part of the row.
- The direct status and approval-step endpoints called outside the workflow service, and `markDeleted`, which nothing
  calls.
- Version restore leaves the document's scan result as it is; no claim is made that it follows the current version.
- Division of milliseconds by a day is exact here; the program divides floating-point numbers.
- Several service instances with one organization cache each: the cache is that of one instance. Ties in the creation
  time of memberships are not modelled.
- Share tokens in the metadata read; preview and download decisions, guardrails and impact previews.
- Search queries, sorting and paging of lists, including the order and the organization filter of the retention evidence.
- HTTP, Keycloak, notification and audit clients, malware and data-loss scanning, watermarks, and the web frontend.
